/** The board's requests as they run: rows changed one at a time in a session, the tables assigned at the commit. */
module BoardService {
  import opened Wrappers
  import opened BoardState
  import opened Lineage
  import opened BoardInvariants

  /** Takes a story out of its group, dropping an implicit group that this empties. */
  method DetachFromGroup(stories: map<Id, Story>, groups: map<Id, Group>, x: Id)
    returns (after: map<Id, Story>, left: map<Id, Group>)
    requires x in stories
    ensures after == stories[x := stories[x].(group := None)]
    ensures
      var g := stories[x].group;
      left == if g.Some? && g.value in groups && groups[g.value].implicit && Members(stories, g.value) == {x}
              then groups - {g.value} else groups
  {
    var g := stories[x].group;
    after, left := stories[x := stories[x].(group := None)], groups;
    if g.Some? {
      assert x in Members(stories, g.value);
      assert Members(after, g.value) == Members(stories, g.value) - {x};
      if Members(after, g.value) == {} {
        assert Members(stories, g.value) == {x};
        if g.value in groups && groups[g.value].implicit {
          left := groups - {g.value};
        }
      }
    } else {
      assert after == stories;
    }
  }

  lemma EmptiedByOneMore(t: Tables, out: set<Id>, x: Id)
    requires x in t.stories && x !in out
    ensures
      var g := t.stories[x].group;
      Emptied(t, out + {x}) ==
        if g.Some? && g.value in t.groups && t.groups[g.value].implicit && Members(t.stories, g.value) - out == {x}
        then Emptied(t, out) + {g.value} else Emptied(t, out)
  {
    forall g | g in t.groups && t.stories[x].group != Some(g)
      ensures Members(t.stories, g) <= out + {x} <==> Members(t.stories, g) <= out
    {
      assert x !in Members(t.stories, g);
    }
    if t.stories[x].group.Some? {
      var g := t.stories[x].group.value;
      assert x in Members(t.stories, g);
      assert Members(t.stories, g) <= out + {x} <==> Members(t.stories, g) - out == {x};
    }
  }

  lemma LeavingOneMore(t: Tables, done: set<Id>, x: Id, parent: Id, pi: Option<Id>, lane: Option<Id>)
    requires x in t.stories && x !in done
    ensures
      var stories := Reparented(t.stories, done, parent, pi, lane);
      var groups := t.groups - Emptied(t, done);
      var g := stories[x].group;
      t.groups - Emptied(t, done + {x}) ==
        if g.Some? && g.value in groups && groups[g.value].implicit && Members(stories, g.value) == {x}
        then groups - {g.value} else groups
  {
    EmptiedByOneMore(t, done, x);
    var g := t.stories[x].group;
    if g.Some? {
      assert Members(Reparented(t.stories, done, parent, pi, lane), g.value) == Members(t.stories, g.value) - done;
      assert x in Members(t.stories, g.value);
    }
  }

  lemma ReparentedOneMore(
      stories: map<Id, Story>, done: set<Id>, x: Id, parent: Id, pi: Option<Id>, lane: Option<Id>)
    requires x in stories && x !in done
    ensures
      Reparented(stories, done + {x}, parent, pi, lane) ==
      Reparented(stories, done, parent, pi, lane)[
        x := stories[x].(group := None, parent := parent, pi := pi, lane := lane)]
  {}

  method RehomeOne(
      stories: map<Id, Story>, groups: map<Id, Group>, x: Id, parent: Id, pi: Option<Id>, lane: Option<Id>,
      ghost t: Tables, ghost done: set<Id>)
    returns (moved: map<Id, Story>, left: map<Id, Group>)
    requires x in t.stories && x !in done
    requires stories == Reparented(t.stories, done, parent, pi, lane) && groups == t.groups - Emptied(t, done)
    ensures moved == Reparented(t.stories, done + {x}, parent, pi, lane)
    ensures left == t.groups - Emptied(t, done + {x})
  {
    moved, left := DetachFromGroup(stories, groups, x);
    assert left == t.groups - Emptied(t, done + {x}) by {
      LeavingOneMore(t, done, x, parent, pi, lane);
    }
    moved := moved[x := moved[x].(parent := parent, pi := pi, lane := lane)];
    assert moved == Reparented(t.stories, done + {x}, parent, pi, lane) by {
      ReparentedOneMore(t.stories, done, x, parent, pi, lane);
    }
  }

  lemma NoneMoved(t: Tables, parent: Id, pi: Option<Id>, lane: Option<Id>)
    ensures Reparented(t.stories, {}, parent, pi, lane) == t.stories && t.groups - Emptied(t, {}) == t.groups
  {
    assert Emptied(t, {}) == {};
  }

  /** Moves these stories, one after another, out of their groups and under a new parent. */
  method Rehome(t: Tables, moved: set<Id>, parent: Id, pi: Option<Id>, lane: Option<Id>)
    returns (stories: map<Id, Story>, groups: map<Id, Group>)
    requires moved <= t.stories.Keys
    ensures stories == Reparented(t.stories, moved, parent, pi, lane)
    ensures groups == t.groups - Emptied(t, moved)
  {
    stories, groups := t.stories, t.groups;
    ghost var done: set<Id> := {};
    var todo := moved;
    NoneMoved(t, parent, pi, lane);
    while todo != {}
      invariant done !! todo && done + todo == moved
      invariant stories == Reparented(t.stories, done, parent, pi, lane)
      invariant groups == t.groups - Emptied(t, done)
      decreases |todo|
    {
      var x :| x in todo;
      stories, groups := RehomeOne(stories, groups, x, parent, pi, lane, t, done);
      todo, done := todo - {x}, done + {x};
    }
    assert done == moved;
  }

  /** A group that rehoming emptied holds no story any more, so ungrouping the others is enough. */
  lemma UngroupedAfterRehome(t: Tables, f: Id, parent: Id, pi: Option<Id>, lane: Option<Id>)
    ensures
      var owned := StoriesOf(t.stories, f);
      var moved := Reparented(t.stories, owned, parent, pi, lane);
      var left := t.groups - Emptied(t, owned);
      var gone := GroupsOf(t.groups, f) + Emptied(t, owned);
      && Ungrouped(moved, GroupsOf(left, f)) == Ungrouped(moved, gone)
      && left - GroupsOf(left, f) == t.groups - gone
  {
    var owned := StoriesOf(t.stories, f);
    var moved := Reparented(t.stories, owned, parent, pi, lane);
    forall y | y in moved && moved[y].group.Some? ensures moved[y].group.value !in Emptied(t, owned) {
      assert y in Members(t.stories, moved[y].group.value);
    }
  }

  method AllOfFeature(stories: map<Id, Story>, found: set<Id>, f: Id) returns (ours: bool)
    requires found <= stories.Keys
    ensures ours <==> forall x :: x in found ==> stories[x].parent == f
  {
    var todo := found;
    while todo != {}
      invariant todo <= found
      invariant forall x :: x in found - todo ==> stories[x].parent == f
      decreases |todo|
    {
      var x :| x in todo;
      if stories[x].parent != f {
        return false;
      }
      todo := todo - {x};
    }
    assert found - todo == found;
    ours := true;
  }

  method AssignGroup(stories: map<Id, Story>, members: set<Id>, group: Option<Id>) returns (after: map<Id, Story>)
    requires members <= stories.Keys
    ensures after == map x | x in stories :: if x in members then stories[x].(group := group) else stories[x]
  {
    after := stories;
    var todo := members;
    while todo != {}
      invariant todo <= members && after.Keys == stories.Keys
      invariant forall x :: x in stories ==>
        after[x] == if x in members - todo then stories[x].(group := group) else stories[x]
      decreases |todo|
    {
      var x :| x in todo;
      after := after[x := after[x].(group := group)];
      todo := todo - {x};
    }
    assert members - todo == members;
  }

  method SendToBacklog(features: map<Id, Feature>, inside: set<Id>) returns (after: map<Id, Feature>)
    requires inside <= features.Keys
    ensures after == map f | f in features ::
      if f in inside then features[f].(location := Backlog, pi := None, lane := None) else features[f]
  {
    after := features;
    var todo := inside;
    while todo != {}
      invariant todo <= inside && after.Keys == features.Keys
      invariant forall f :: f in features ==>
        after[f] ==
          if f in inside - todo then features[f].(location := Backlog, pi := None, lane := None) else features[f]
      decreases |todo|
    {
      var f :| f in todo;
      after := after[f := after[f].(location := Backlog, pi := None, lane := None)];
      todo := todo - {f};
    }
    assert inside - todo == inside;
  }

  lemma FeatureIsInItsDescent(features: map<Id, Feature>, f: Id)
    requires f in features
    ensures {f} + (Descent(features, {f}) - {f}) == Descent(features, {f})
  {
    assert Climb(features, f, 0) == f;
  }

  /** What a caller sees of a request: its answer, and the tables it committed or left alone. */
  ghost predicate Answered(before: Tables, reply: Reply, after: Tables, failure: Option<Error>) {
    match reply
    case Ok(committed) => failure == None && after == committed
    case Err(e) => failure == Some(e) && after == before
  }

  class Board {
    var features: map<Id, Feature>
    var stories: map<Id, Story>
    var groups: map<Id, Group>
    var lanes: map<Id, Id>
    var pis: set<Id>

    ghost function Contents(): Tables
      reads this
    {
      Tables(features, stories, groups, lanes, pis)
    }

    constructor ()
      ensures Contents() == EMPTY
    {
      features, stories, groups, lanes, pis := map[], map[], map[], map[], {};
    }

    /** Carries the feature's groups along, one row at a time. */
    method MoveToSwimlane(f: Id, lane: Id, named: Option<Option<Id>>) returns (failure: Option<Error>)
      modifies this
      ensures Answered(old(Contents()), MoveToLane(old(Contents()), f, lane, named), Contents(), failure)
    {
      if f !in features || lane !in lanes {
        return Some(NotFound);
      }
      var session := groups;
      var todo := GroupsOf(groups, f);
      while todo != {}
        invariant todo <= GroupsOf(groups, f) && session.Keys == groups.Keys
        invariant forall g :: g in groups ==>
          session[g] == if g in GroupsOf(groups, f) - todo then groups[g].(lane := lane) else groups[g]
        decreases |todo|
      {
        var g :| g in todo;
        session := session[g := session[g].(lane := lane)];
        todo := todo - {g};
      }
      assert forall g :: g in groups ==> (g in GroupsOf(groups, f) - todo <==> groups[g].feature == f);
      assert session == Relocated(groups, f, lane);
      if !Unique(session) {
        return Some(Integrity);
      }
      groups := session;
      var home := if named.Some? then named.value else Some(lanes[lane]);
      features := features[f := features[f].(location := InPi, lane := Some(lane), pi := home)];
      failure := None;
    }

    /** Clears the group of every story in the feature's groups, then deletes the groups. */
    method ReturnToBacklog(f: Id) returns (failure: Option<Error>)
      modifies this
      ensures Answered(old(Contents()), MoveToBacklog(old(Contents()), f), Contents(), failure)
    {
      if f !in features {
        return Some(NotFound);
      }
      var gone := GroupsOf(groups, f);
      stories := Ungrouped(stories, gone);
      var todo := gone;
      while todo != {}
        invariant todo <= gone
        invariant groups == old(groups) - (gone - todo)
        invariant unchanged(`features) && unchanged(`lanes) && unchanged(`pis)
          && stories == Ungrouped(old(stories), gone)
        decreases |todo|
      {
        var g :| g in todo;
        groups := groups - {g};
        todo := todo - {g};
      }
      assert groups == old(groups) - gone;
      features := features[f := features[f].(location := Backlog, lane := None, pi := None)];
      failure := None;
    }

    method SplitFeature(f: Id, targetPi: Id, targetLane: Id, selected: set<Id>, id: Id) returns (failure: Option<Error>)
      modifies this
      ensures Answered(
          old(Contents()), Split(old(Contents()), f, targetPi, targetLane, selected, id), Contents(), failure)
    {
      if f !in features {
        return Some(NotFound);
      }
      if features[f].location != InPi {
        return Some(NotInPi);
      }
      if targetLane !in lanes {
        return Some(NotFound);
      }
      if lanes[targetLane] != targetPi {
        return Some(LaneMismatch);
      }
      if selected == {} {
        return Some(NoStories);
      }
      var all := StoriesOf(stories, f);
      if !(selected <= all) {
        return Some(StoryNotInFeature);
      }
      if selected == all {
        failure := MoveToSwimlane(f, targetLane, Some(Some(targetPi)));
        return;
      }
      if id in features {
        return Some(Integrity);
      }
      var moved, left :=
        Rehome(Tables(features, stories, groups, lanes, pis), selected, id, Some(targetPi), Some(targetLane));
      features := features[id := Feature(InPi, Some(targetPi), Some(targetLane), Some(f))];
      stories, groups := moved, left;
      failure := None;
    }

    method Cancel(f: Id) returns (failure: Option<Error>)
      modifies this
      ensures Answered(old(Contents()), CancelContinuation(old(Contents()), f), Contents(), failure)
    {
      if f !in features {
        return Some(NotFound);
      }
      if features[f].from.None? {
        return Some(NotAContinuation);
      }
      if !IsLeaf(features, f) {
        return Some(HasContinuations);
      }
      var o := features[f].from.value;
      if o !in features {
        return Some(OriginMissing);
      }
      var owned := StoriesOf(stories, f);
      var moved, left :=
        Rehome(Tables(features, stories, groups, lanes, pis), owned, o, features[o].pi, features[o].lane);
      var dropped := GroupsOf(left, f);
      UngroupedAfterRehome(Contents(), f, o, features[o].pi, features[o].lane);
      stories := Ungrouped(moved, dropped);
      groups := left - dropped;
      features := features - {f};
      failure := None;
    }

    /** The feature, then its continuations; their stories and groups go with them. */
    method Delete(f: Id) returns (failure: Option<Error>)
      modifies this
      ensures Answered(old(Contents()), DeleteFeature(old(Contents()), f), Contents(), failure)
    {
      if f !in features {
        return Some(NotFound);
      }
      var below := DescendantIds(features, {f});
      var gone := {f} + below;
      FeatureIsInItsDescent(features, f);
      var doomed := set g | g in groups && groups[g].feature in gone;
      stories := Ungrouped(map x | x in stories && stories[x].parent !in gone :: stories[x], doomed);
      groups := groups - doomed;
      features := RemoveEach(features, gone);
      failure := None;
    }

    method Place(x: Id, sprint: nat, id: Id) returns (failure: Option<Error>)
      modifies this
      ensures Answered(old(Contents()), PlaceStory(old(Contents()), x, sprint, id), Contents(), failure)
    {
      if x !in stories {
        return Some(NotFound);
      }
      if stories[x].group.Some? {
        return Some(AlreadyGrouped);
      }
      var f := stories[x].parent;
      if f !in features || features[f].location != InPi {
        return Some(NotInPi);
      }
      var lane := features[f].lane;
      if lane.None? {
        return Some(NotInLane);
      }
      if id in groups {
        return Some(Integrity);
      }
      var session := groups[id := Group(lane.value, f, stories[x].title, Some(sprint), true, Some(x))];
      if !Unique(session) {
        return Some(Integrity);
      }
      groups := session;
      stories := stories[x := stories[x].(group := Some(id), lane := lane)];
      failure := None;
    }

    method Unplace(x: Id) returns (failure: Option<Error>)
      modifies this
      ensures Answered(old(Contents()), UnplaceStory(old(Contents()), x), Contents(), failure)
    {
      if x !in stories {
        return Some(NotFound);
      }
      var g := stories[x].group;
      stories := stories[x := stories[x].(group := None, lane := None)];
      if g.Some? && g.value in groups && groups[g.value].implicit {
        stories := Ungrouped(stories, {g.value});
        groups := groups - {g.value};
      }
      failure := None;
    }

    /** The old group goes too if this empties it and it was implicit. */
    method UpdateStoryGroup(x: Id, to: Option<Id>) returns (failure: Option<Error>)
      modifies this
      ensures Answered(old(Contents()), ChangeGroup(old(Contents()), x, to), Contents(), failure)
    {
      if x !in stories {
        return Some(NotFound);
      }
      var from := stories[x].group;
      stories := stories[x := stories[x].(group := to)];
      if from.Some? && from != to && Members(stories, from.value) == {} {
        if from.value in groups && groups[from.value].implicit {
          groups := groups - {from.value};
        }
      }
      failure := None;
    }

    /** Each field the request names is written as it stands. */
    method UpdateLocation(
        f: Id, inPi: bool, named: Option<Option<Id>>, clearLane: bool)
      returns (failure: Option<Error>)
      modifies this
      ensures Answered(old(Contents()), WriteLocation(old(Contents()), f, inPi, named, clearLane), Contents(), failure)
    {
      if f !in features {
        return Some(NotFound);
      }
      var feature := features[f];
      if inPi {
        feature := feature.(location := InPi);
      }
      if named.Some? {
        feature := feature.(pi := named.value);
      }
      if clearLane {
        feature := feature.(lane := None);
      }
      features := features[f := feature];
      failure := None;
    }

    /** Two bulk deletes: the stories of every backlog feature, then the features. */
    method EmptyBacklog()
      modifies this
      ensures Contents() == ClearBacklog(old(Contents()))
    {
      var gone := set f | f in features && features[f].location == Backlog;
      stories := map x | x in stories && stories[x].parent !in gone :: stories[x];
      features := RemoveEach(features, gone);
    }

    /** Every listed story that exists must be the feature's; they then join the group one at a time. */
    method MakeGroup(lane: Id, f: Id, name: string, listed: set<Id>, sprint: Option<nat>, id: Id)
      returns (failure: Option<Error>)
      modifies this
      ensures Answered(
          old(Contents()), CreateGroup(old(Contents()), lane, f, name, listed, sprint, id), Contents(), failure)
    {
      if lane !in lanes {
        return Some(NotFound);
      }
      if f !in features || features[f].lane != Some(lane) {
        return Some(NotInLane);
      }
      var found := set x | x in listed && x in stories;
      var ours := AllOfFeature(stories, found, f);
      if !ours {
        return Some(WrongFeature);
      }
      if id in groups {
        return Some(Integrity);
      }
      var session := groups[id := Group(lane, f, name, sprint, false, None)];
      if !Unique(session) {
        return Some(Integrity);
      }
      groups := session;
      stories := AssignGroup(stories, found, Some(id));
      failure := None;
    }

    method RemoveGroup(g: Id) returns (failure: Option<Error>)
      modifies this
      ensures Answered(old(Contents()), DeleteGroup(old(Contents()), g), Contents(), failure)
    {
      if g !in groups {
        return Some(NotFound);
      }
      var members := Members(stories, g);
      stories := AssignGroup(stories, members, None);
      assert stories == Ungrouped(old(stories), {g});
      groups := groups - {g};
      failure := None;
    }

    /** The features inside go back to the backlog one at a time; deleting the rows takes their groups along. */
    method DropLanes(gone: set<Id>)
      modifies this
      ensures Contents() == WithoutLanes(old(Contents()), gone)
    {
      var inside := set f | f in features && Inside(features[f], gone);
      features := SendToBacklog(features, inside);
      var doomed := set g | g in groups && groups[g].lane in gone;
      stories := Ungrouped(OffLanes(stories, gone), doomed);
      groups := groups - doomed;
      lanes := RemoveEach(lanes, gone);
    }

    method RemoveLane(lane: Id) returns (failure: Option<Error>)
      modifies this
      ensures Answered(old(Contents()), DeleteLane(old(Contents()), lane), Contents(), failure)
    {
      if lane !in lanes {
        return Some(NotFound);
      }
      DropLanes({lane});
      failure := None;
    }

    /** Its swimlanes are deleted with it, and the database clears every other reference to it. */
    method RemovePi(pi: Id) returns (failure: Option<Error>)
      modifies this
      ensures Answered(old(Contents()), DeletePi(old(Contents()), pi), Contents(), failure)
    {
      if pi !in pis {
        return Some(NotFound);
      }
      DropLanes(LanesOf(Tables(features, stories, groups, lanes, pis), pi));
      features := map f | f in features :: if features[f].pi == Some(pi) then features[f].(pi := None) else features[f];
      stories := map x | x in stories :: if stories[x].pi == Some(pi) then stories[x].(pi := None) else stories[x];
      pis := pis - {pi};
      failure := None;
    }
  }
}
