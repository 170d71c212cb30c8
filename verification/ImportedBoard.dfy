/**
 * What an import makes of the planning board: the stored rows read as the board's tables, and the exact condition on a
 * payload under which the board stays whole (backend/app/routes/projects.py, whose importer checks none of it).
 */
module ImportedBoard {
  import opened Wrappers
  import opened ProjectImport
  import Board = BoardState
  import Invariants = BoardInvariants
  import Lineage

  /** How the board's own columns are read out of what a row holds besides its links. */
  datatype Columns = Columns(
    title: string -> string, effort: string -> real, inPi: string -> bool, sprint: string -> Option<nat>)

  function Link(row: Row, f: Field): Option<New> {
    if f in row.links then Some(row.links[f]) else None
  }

  /** The columns that cannot be null are filled. */
  predicate Filled(kind: Kind, row: Row) {
    && Parent(kind) in row.links
    && (kind == Group || kind == Story ==> ToFeature in row.links)
  }

  ghost predicate Complete(rows: Rows) {
    forall k :: k in rows ==> Filled(k.kind, rows[k])
  }

  function FeatureOf(row: Row, c: Columns): Board.Feature {
    var location := if c.inPi(row.body) then Board.InPi else Board.Backlog;
    Board.Feature(location, Link(row, ToPi), Link(row, ToLane), Link(row, ToOrigin))
  }

  function StoryOf(row: Row, c: Columns): Board.Story
    requires Filled(Story, row)
  {
    Board.Story(c.title(row.body), c.effort(row.body), row.links[ToFeature], Link(row, ToGroup), Link(row, ToLane),
      Link(row, ToPi))
  }

  /** A group with a name to be unique is an explicit one. */
  function GroupOf(row: Row, c: Columns): Board.Group
    requires Filled(Group, row)
  {
    Board.Group(row.links[ToLane], row.links[ToFeature], row.tag.GetOr(c.title(row.body)), c.sprint(row.body),
      row.tag.None?, Link(row, ToStory))
  }

  ghost function FeaturesOf(rows: Rows, c: Columns): map<New, Board.Feature> {
    map k | k in rows && k.kind == Feature :: k.id := FeatureOf(rows[k], c)
  }

  ghost function GroupsOf(rows: Rows, c: Columns): map<New, Board.Group>
    requires Complete(rows)
  {
    map k | k in rows && k.kind == Group :: k.id := GroupOf(rows[k], c)
  }

  ghost function BoardOf(rows: Rows, c: Columns): Board.Tables
    requires Complete(rows)
  {
    Board.Tables(
      FeaturesOf(rows, c),
      map k | k in rows && k.kind == Story :: k.id := StoryOf(rows[k], c),
      GroupsOf(rows, c),
      map k | k in rows && k.kind == Lane :: k.id := rows[k].links[ToPi],
      set k | k in rows && k.kind == Pi :: k.id)
  }

  // ---- a whole board, row by row ------------------------------------------------------

  predicate GroupStands(rows: Rows, row: Row) {
    && ToFeature in row.links && ToLane in row.links && Key(Feature, row.links[ToFeature]) in rows
    && Link(rows[Key(Feature, row.links[ToFeature])], ToLane) == Some(row.links[ToLane])
  }

  predicate StoryStands(rows: Rows, row: Row) {
    && ToFeature in row.links && Key(Feature, row.links[ToFeature]) in rows
    && (ToGroup in row.links ==>
          && Key(Group, row.links[ToGroup]) in rows
          && Link(rows[Key(Group, row.links[ToGroup])], ToFeature) == Some(row.links[ToFeature]))
  }

  predicate FeatureStands(rows: Rows, row: Row, c: Columns) {
    && (c.inPi(row.body) <==> ToLane in row.links)
    && (ToLane in row.links ==> Key(Lane, row.links[ToLane]) in rows)
  }

  predicate LaneStands(rows: Rows, row: Row) {
    ToPi in row.links && Key(Pi, row.links[ToPi]) in rows
  }

  predicate Stands(rows: Rows, kind: Kind, row: Row, c: Columns) {
    match kind
    case Group => GroupStands(rows, row)
    case Story => StoryStands(rows, row)
    case Feature => FeatureStands(rows, row, c)
    case Lane => LaneStands(rows, row)
    case _ => true
  }

  ghost predicate AllStand(rows: Rows, c: Columns) {
    forall k :: k in rows ==> Stands(rows, k.kind, rows[k], c)
  }

  ghost predicate KindStands(rows: Rows, kind: Kind, c: Columns) {
    forall k :: k in rows && k.kind == kind ==> Stands(rows, kind, rows[k], c)
  }

  lemma EachKindStands(rows: Rows, c: Columns)
    ensures AllStand(rows, c) <==>
      KindStands(rows, Group, c) && KindStands(rows, Story, c) && KindStands(rows, Feature, c)
      && KindStands(rows, Lane, c)
  {}

  /** The two unique indexes on groups, over the rows. */
  ghost predicate GroupsUnique(rows: Rows) {
    forall j, k :: j in rows && k in rows && j != k && j.kind == k.kind == Group ==>
      !SameTag(Group, rows[j], rows[k]) && !SameStory(Group, rows[j], rows[k])
  }

  lemma BoardHas(rows: Rows, c: Columns)
    requires Complete(rows)
    ensures forall id :: id in BoardOf(rows, c).features <==> Key(Feature, id) in rows
    ensures forall id :: id in BoardOf(rows, c).stories <==> Key(Story, id) in rows
    ensures forall id :: id in BoardOf(rows, c).groups <==> Key(Group, id) in rows
    ensures forall id :: id in BoardOf(rows, c).lanes <==> Key(Lane, id) in rows
    ensures forall id :: id in BoardOf(rows, c).pis <==> Key(Pi, id) in rows
  {
    var t := BoardOf(rows, c);
    forall id ensures id in t.features <==> Key(Feature, id) in rows {
      assert Key(Feature, id).id == id;
    }
    forall id ensures id in t.stories <==> Key(Story, id) in rows {
      assert Key(Story, id).id == id;
    }
    forall id ensures id in t.groups <==> Key(Group, id) in rows {
      assert Key(Group, id).id == id;
    }
    forall id ensures id in t.lanes <==> Key(Lane, id) in rows {
      assert Key(Lane, id).id == id;
    }
    forall id ensures id in t.pis <==> Key(Pi, id) in rows {
      assert Key(Pi, id).id == id;
    }
  }

  /** Two groups the board's indexes let stand side by side. */
  predicate SideBySide(a: Board.Group, b: Board.Group) {
    && (!a.implicit && !b.implicit ==> !(a.lane == b.lane && a.name == b.name))
    && (a.implicit && b.implicit ==> a.story.None? || a.story != b.story)
  }

  lemma SideBySideWhen(a: Row, b: Row, c: Columns)
    requires Filled(Group, a) && Filled(Group, b)
    ensures SideBySide(GroupOf(a, c), GroupOf(b, c)) <==> !SameTag(Group, a, b) && !SameStory(Group, a, b)
  {}

  lemma UniqueIsSideBySide(groups: map<New, Board.Group>)
    ensures Board.Unique(groups) <==>
      forall g, h :: g in groups && h in groups && g != h ==> SideBySide(groups[g], groups[h])
  {}

  lemma SideBySideIsGroupsUnique(rows: Rows, c: Columns)
    requires Complete(rows)
    ensures GroupsUnique(rows) <==>
      forall j, k :: j in rows && k in rows && j != k && j.kind == k.kind == Group ==>
        SideBySide(GroupOf(rows[j], c), GroupOf(rows[k], c))
  {
    forall j, k | j in rows && k in rows && j.kind == k.kind == Group
      ensures SideBySide(GroupOf(rows[j], c), GroupOf(rows[k], c)) <==>
        !SameTag(Group, rows[j], rows[k]) && !SameStory(Group, rows[j], rows[k])
    {
      SideBySideWhen(rows[j], rows[k], c);
    }
  }

  lemma UniqueIsGroupsUnique(rows: Rows, c: Columns)
    requires Complete(rows)
    ensures Board.Unique(BoardOf(rows, c).groups) <==> GroupsUnique(rows)
  {
    var groups := GroupsOf(rows, c);
    UniqueIsSideBySide(groups);
    SideBySideIsGroupsUnique(rows, c);
    forall k | k in rows && k.kind == Group ensures k.id in groups && groups[k.id] == GroupOf(rows[k], c) {}
    forall g | g in groups ensures Key(Group, g) in rows && groups[g] == GroupOf(rows[Key(Group, g)], c) {}
  }

  lemma StandingGroups(rows: Rows, c: Columns)
    requires Complete(rows)
    ensures Invariants.GroupsFollow(BoardOf(rows, c)) <==> KindStands(rows, Group, c)
  {
    BoardHas(rows, c);
    forall k | k in rows && k.kind == Group ensures k.id in BoardOf(rows, c).groups && k == Key(Group, k.id) {}
  }

  lemma StandingStories(rows: Rows, c: Columns)
    requires Complete(rows)
    ensures Invariants.StoriesBelong(BoardOf(rows, c)) <==> KindStands(rows, Story, c)
  {
    BoardHas(rows, c);
    forall k | k in rows && k.kind == Story ensures k.id in BoardOf(rows, c).stories && k == Key(Story, k.id) {}
  }

  lemma StandingFeatures(rows: Rows, c: Columns)
    requires Complete(rows)
    ensures Invariants.FeaturesLocated(BoardOf(rows, c)) <==> KindStands(rows, Feature, c)
  {
    BoardHas(rows, c);
    forall k | k in rows && k.kind == Feature ensures k.id in BoardOf(rows, c).features && k == Key(Feature, k.id) {}
  }

  lemma StandingLanes(rows: Rows, c: Columns)
    requires Complete(rows)
    ensures Invariants.LanesHavePi(BoardOf(rows, c)) <==> KindStands(rows, Lane, c)
  {
    BoardHas(rows, c);
    forall k | k in rows && k.kind == Lane ensures k.id in BoardOf(rows, c).lanes && k == Key(Lane, k.id) {}
  }

  /** A board is whole exactly when each row stands, the indexes hold and the continuations form a forest. */
  lemma WholeIsStanding(rows: Rows, c: Columns)
    requires Complete(rows)
    ensures Invariants.Valid(BoardOf(rows, c)) <==>
      AllStand(rows, c) && GroupsUnique(rows) && Lineage.Forest(FeaturesOf(rows, c))
  {
    StandingGroups(rows, c);
    StandingStories(rows, c);
    StandingFeatures(rows, c);
    StandingLanes(rows, c);
    EachKindStands(rows, c);
    UniqueIsGroupsUnique(rows, c);
  }

  // ---- a whole payload ----------------------------------------------------------------

  /** The payload has such an object. */
  ghost predicate Names(nodes: seq<Node>, kind: Kind, id: Old) {
    exists m :: m in nodes && m.kind == kind && m.id == id
  }

  ghost predicate NamesWith(nodes: seq<Node>, kind: Kind, id: Old, f: Field, target: Old) {
    exists m :: m in nodes && m.kind == kind && m.id == id && Refers(m.links, f, target)
  }

  /** The reference is there and names something of the payload. */
  predicate Resolves(n: Node, f: Field, known: set<Old>) {
    f in n.links && n.links[f] in known
  }

  /** A group's feature is in its swimlane. */
  ghost predicate GroupFits(nodes: seq<Node>, n: Node) {
    && ToFeature in n.links && ToLane in n.links
    && NamesWith(nodes, Feature, n.links[ToFeature], ToLane, n.links[ToLane])
  }

  /** A story's feature is one, and its group, if it has one, is that feature's. */
  ghost predicate StoryFits(nodes: seq<Node>, n: Node, known: set<Old>) {
    && ToFeature in n.links && Names(nodes, Feature, n.links[ToFeature])
    && (Resolves(n, ToGroup, known) ==> NamesWith(nodes, Group, n.links[ToGroup], ToFeature, n.links[ToFeature]))
  }

  /** A feature is in a PI exactly when it has a swimlane, and that is one. */
  ghost predicate FeatureFits(nodes: seq<Node>, n: Node, known: set<Old>, c: Columns) {
    && (c.inPi(n.body) <==> Resolves(n, ToLane, known))
    && (Resolves(n, ToLane, known) ==> Names(nodes, Lane, n.links[ToLane]))
  }

  ghost predicate Fits(nodes: seq<Node>, n: Node, known: set<Old>, c: Columns) {
    match n.kind
    case Group => GroupFits(nodes, n)
    case Story => StoryFits(nodes, n, known)
    case Feature => FeatureFits(nodes, n, known, c)
    case _ => true
  }

  ghost predicate OriginsRanked(nodes: seq<Node>, known: set<Old>, rank: map<Old, nat>) {
    forall n :: n in nodes && n.kind == Feature ==>
      && n.id in rank
      && (Resolves(n, ToOrigin, known) ==>
            && Names(nodes, Feature, n.links[ToOrigin]) && n.links[ToOrigin] in rank
            && rank[n.links[ToOrigin]] < rank[n.id])
  }

  /** The continuations of the payload's features end, each at one that continues nothing. */
  ghost predicate OriginsEnd(nodes: seq<Node>, known: set<Old>) {
    exists rank :: OriginsRanked(nodes, known, rank)
  }

  /** Every object fits the ones it names, and no feature continues itself by way of others. */
  ghost predicate Whole(p: Payload, c: Columns) {
    && (forall n :: n in Nodes(p) ==> Fits(Nodes(p), n, AllIds(p), c))
    && OriginsEnd(Nodes(p), AllIds(p))
  }

  // ---- what was there before ----------------------------------------------------------

  /** The rows after an import, as far as they matter here. */
  ghost predicate Grown(before: Rows, after: Rows, nodes: seq<Node>, home: New, idMap: IdMap) {
    && FreshMap(before, home, idMap) && Known(nodes, idMap) && Apart(nodes) && StoriesApart(nodes, idMap.Keys)
    && !AnyDangling(nodes, idMap.Keys)
    && after.Keys == before.Keys + KeysOf(nodes, idMap)
    && (forall k :: k in before ==> after[k] == before[k])
    && (forall n :: n in nodes ==> KeyFor(n, idMap) in after && after[KeyFor(n, idMap)] == FinalRow(n, home, idMap))
  }

  lemma NewRowIsFilled(n: Node, home: New, idMap: IdMap)
    requires Placed(n, idMap) && !IsDangling(n, idMap.Keys)
    ensures Filled(n.kind, FinalRow(n, home, idMap))
  {
    EveryField(Parent(n.kind));
    EveryField(ToFeature);
  }

  lemma GrownIsComplete(before: Rows, after: Rows, nodes: seq<Node>, home: New, idMap: IdMap)
    requires Grown(before, after, nodes, home, idMap) && Complete(before)
    ensures Complete(after)
  {
    forall k | k in after && k !in before ensures Filled(k.kind, after[k]) {
      var n :| n in nodes && KeyFor(n, idMap) == k;
      NewRowIsFilled(n, home, idMap);
    }
  }

  /** No stored row refers to a new one. */
  lemma OldLinksStayOld(
      before: Rows, after: Rows, nodes: seq<Node>, home: New, idMap: IdMap, k: Key, f: Field, kind: Kind)
    requires Grown(before, after, nodes, home, idMap) && k in before && f in before[k].links
    ensures Key(kind, before[k].links[f]) in after <==> Key(kind, before[k].links[f]) in before
  {}

  lemma OldRowStands(before: Rows, after: Rows, nodes: seq<Node>, home: New, idMap: IdMap, k: Key, c: Columns)
    requires Grown(before, after, nodes, home, idMap) && k in before
    ensures Stands(after, k.kind, after[k], c) <==> Stands(before, k.kind, before[k], c)
  {
    forall f, kind | f in before[k].links
      ensures Key(kind, before[k].links[f]) in after <==> Key(kind, before[k].links[f]) in before
    {
      OldLinksStayOld(before, after, nodes, home, idMap, k, f, kind);
    }
  }

  // ---- what is new --------------------------------------------------------------------

  /** A reference of the payload leads to a row of a kind exactly when it names an object of that kind. */
  lemma LeadsTo(before: Rows, after: Rows, nodes: seq<Node>, home: New, idMap: IdMap, kind: Kind, x: Old)
    requires Grown(before, after, nodes, home, idMap) && x in idMap
    ensures Key(kind, idMap[x]) in after <==> Names(nodes, kind, x)
  {
    if Key(kind, idMap[x]) in after {
      var m :| m in nodes && KeyFor(m, idMap) == Key(kind, idMap[x]);
    }
    if m :| m in nodes && m.kind == kind && m.id == x {
      assert KeyFor(m, idMap) == Key(kind, idMap[x]);
    }
  }

  lemma NewLink(n: Node, home: New, idMap: IdMap, f: Field)
    requires Placed(n, idMap) && f != ToProject
    ensures Link(FinalRow(n, home, idMap), f) == if Resolves(n, f, idMap.Keys) then Some(idMap[n.links[f]]) else None
  {
    EveryField(f);
  }

  lemma BehindKey(
      before: Rows, after: Rows, nodes: seq<Node>, home: New, idMap: IdMap, kind: Kind, x: Old)
    returns (m: Node)
    requires Grown(before, after, nodes, home, idMap) && x in idMap && Key(kind, idMap[x]) in after
    ensures m in nodes && m.kind == kind && m.id == x && after[Key(kind, idMap[x])] == FinalRow(m, home, idMap)
  {
    m :| m in nodes && KeyFor(m, idMap) == Key(kind, idMap[x]);
  }

  lemma LeadsToWith(
      before: Rows, after: Rows, nodes: seq<Node>, home: New, idMap: IdMap, kind: Kind, x: Old, f: Field, y: Old)
    requires Grown(before, after, nodes, home, idMap) && x in idMap && y in idMap && f != ToProject
    ensures Key(kind, idMap[x]) in after && Link(after[Key(kind, idMap[x])], f) == Some(idMap[y]) <==>
      NamesWith(nodes, kind, x, f, y)
  {
    if Key(kind, idMap[x]) in after {
      var m := BehindKey(before, after, nodes, home, idMap, kind, x);
      NewLink(m, home, idMap, f);
      if Link(FinalRow(m, home, idMap), f) == Some(idMap[y]) {
        assert Refers(m.links, f, y);
      }
    }
    if NamesWith(nodes, kind, x, f, y) {
      NamedIsThere(before, after, nodes, home, idMap, kind, x, f, y);
    }
  }

  lemma NamedIsThere(
      before: Rows, after: Rows, nodes: seq<Node>, home: New, idMap: IdMap, kind: Kind, x: Old, f: Field, y: Old)
    requires Grown(before, after, nodes, home, idMap) && x in idMap && y in idMap && f != ToProject
    requires NamesWith(nodes, kind, x, f, y)
    ensures Key(kind, idMap[x]) in after && Link(after[Key(kind, idMap[x])], f) == Some(idMap[y])
  {
    var m :| m in nodes && m.kind == kind && m.id == x && Refers(m.links, f, y);
    NewLink(m, home, idMap, f);
    assert KeyFor(m, idMap) == Key(kind, idMap[x]);
  }

  lemma NewGroupStands(before: Rows, after: Rows, nodes: seq<Node>, home: New, idMap: IdMap, n: Node)
    requires Grown(before, after, nodes, home, idMap) && n in nodes && n.kind == Group
    ensures GroupStands(after, FinalRow(n, home, idMap)) <==> GroupFits(nodes, n)
  {
    NewLink(n, home, idMap, ToFeature);
    NewLink(n, home, idMap, ToLane);
    LeadsToWith(before, after, nodes, home, idMap, Feature, n.links[ToFeature], ToLane, n.links[ToLane]);
  }

  lemma NewStoryStands(before: Rows, after: Rows, nodes: seq<Node>, home: New, idMap: IdMap, n: Node)
    requires Grown(before, after, nodes, home, idMap) && n in nodes && n.kind == Story
    ensures StoryStands(after, FinalRow(n, home, idMap)) <==> StoryFits(nodes, n, idMap.Keys)
  {
    NewLink(n, home, idMap, ToFeature);
    NewLink(n, home, idMap, ToGroup);
    LeadsTo(before, after, nodes, home, idMap, Feature, n.links[ToFeature]);
    if Resolves(n, ToGroup, idMap.Keys) {
      LeadsToWith(before, after, nodes, home, idMap, Group, n.links[ToGroup], ToFeature, n.links[ToFeature]);
    }
  }

  lemma NewFeatureStands(before: Rows, after: Rows, nodes: seq<Node>, home: New, idMap: IdMap, n: Node, c: Columns)
    requires Grown(before, after, nodes, home, idMap) && n in nodes && n.kind == Feature
    ensures FeatureStands(after, FinalRow(n, home, idMap), c) <==> FeatureFits(nodes, n, idMap.Keys, c)
  {
    NewLink(n, home, idMap, ToLane);
    if Resolves(n, ToLane, idMap.Keys) {
      LeadsTo(before, after, nodes, home, idMap, Lane, n.links[ToLane]);
    }
  }

  lemma {:induction false} LanesOfPi(pis: seq<PiTree>, n: Node) returns (m: Node)
    requires n in Structures(pis) && n.kind == Lane
    ensures m in Structures(pis) && m.kind == Pi && ToPi in n.links && m.id == n.links[ToPi]
  {
    var last := pis[|pis| - 1];
    if n in Structure(last) {
      m := NodeOf(Pi, last.pi, None);
    } else {
      m := LanesOfPi(pis[..|pis| - 1], n);
    }
  }

  /** Every swimlane of a payload is inside one of its PIs. */
  lemma LanesHaveTheirPi(p: Payload, n: Node)
    requires n in Nodes(p) && n.kind == Lane
    ensures ToPi in n.links && Names(Nodes(p), Pi, n.links[ToPi])
  {
    NodesOfKind(State, p.states, None);
    NodesOfKind(Feature, p.features, None);
    NodesOfKind(Story, p.stories, None);
    StructuresKinds(p.pis);
    var m := LanesOfPi(p.pis, n);
  }

  lemma NewRowStands(before: Rows, after: Rows, p: Payload, home: New, idMap: IdMap, n: Node, c: Columns)
    requires Grown(before, after, Nodes(p), home, idMap) && n in Nodes(p)
    ensures Stands(after, n.kind, FinalRow(n, home, idMap), c) <==> Fits(Nodes(p), n, idMap.Keys, c)
  {
    match n.kind
    case Group => NewGroupStands(before, after, Nodes(p), home, idMap, n);
    case Story => NewStoryStands(before, after, Nodes(p), home, idMap, n);
    case Feature => NewFeatureStands(before, after, Nodes(p), home, idMap, n, c);
    case Lane =>
      LanesHaveTheirPi(p, n);
      NewLink(n, home, idMap, ToPi);
      LeadsTo(before, after, Nodes(p), home, idMap, Pi, n.links[ToPi]);
    case _ =>
  }

  lemma AllStandWhen(before: Rows, after: Rows, p: Payload, home: New, idMap: IdMap, c: Columns)
    requires Grown(before, after, Nodes(p), home, idMap) && AllStand(before, c)
    ensures AllStand(after, c) <==> forall n :: n in Nodes(p) ==> Fits(Nodes(p), n, idMap.Keys, c)
  {
    forall n | n in Nodes(p)
      ensures Stands(after, n.kind, after[KeyFor(n, idMap)], c) <==> Fits(Nodes(p), n, idMap.Keys, c)
    {
      NewRowStands(before, after, p, home, idMap, n, c);
    }
    forall k | k in before ensures Stands(after, k.kind, after[k], c) {
      OldRowStands(before, after, Nodes(p), home, idMap, k, c);
    }
    if forall n :: n in Nodes(p) ==> Fits(Nodes(p), n, idMap.Keys, c) {
      forall k | k in after && k !in before ensures Stands(after, k.kind, after[k], c) {
        var n :| n in Nodes(p) && KeyFor(n, idMap) == k;
      }
    }
  }

  // ---- the indexes --------------------------------------------------------------------

  lemma NewPairUnique(nodes: seq<Node>, home: New, idMap: IdMap, a: Node, b: Node)
    requires Known(nodes, idMap) && Apart(nodes) && StoriesApart(nodes, idMap.Keys)
    requires forall x, y :: x in idMap && y in idMap && idMap[x] == idMap[y] ==> x == y
    requires a in nodes && b in nodes && a != b && a.kind == b.kind == Group
    ensures !SameTag(Group, FinalRow(a, home, idMap), FinalRow(b, home, idMap))
    ensures !SameStory(Group, FinalRow(a, home, idMap), FinalRow(b, home, idMap))
  {
    NewLink(a, home, idMap, ToLane);
    NewLink(b, home, idMap, ToLane);
    NewLink(a, home, idMap, ToStory);
    NewLink(b, home, idMap, ToStory);
    NodesShareNot(nodes, a, b, idMap.Keys);
    NodesConflictNot(nodes, a, b);
  }

  lemma NodesConflictNot(nodes: seq<Node>, a: Node, b: Node)
    requires Apart(nodes) && a in nodes && b in nodes && a != b
    ensures !Conflict(a, b)
  {
    var i :| 0 <= i < |nodes| && nodes[i] == a;
    var j :| 0 <= j < |nodes| && nodes[j] == b;
    if i < j {
      assert !Conflict(nodes[i], nodes[j]);
    } else {
      assert !Conflict(nodes[j], nodes[i]);
    }
  }

  lemma NewBesideOld(before: Rows, n: Node, home: New, idMap: IdMap, k: Key)
    requires FreshMap(before, home, idMap) && Placed(n, idMap) && k in before
    ensures !SameTag(Group, before[k], FinalRow(n, home, idMap)) && !SameTag(Group, FinalRow(n, home, idMap), before[k])
    ensures !SameStory(Group, before[k], FinalRow(n, home, idMap))
      && !SameStory(Group, FinalRow(n, home, idMap), before[k])
  {
    NewLink(n, home, idMap, ToLane);
    NewLink(n, home, idMap, ToStory);
  }

  /** An import keeps the indexes on groups. */
  lemma GroupsStayUnique(before: Rows, after: Rows, nodes: seq<Node>, home: New, idMap: IdMap)
    requires Grown(before, after, nodes, home, idMap) && GroupsUnique(before)
    ensures GroupsUnique(after)
  {
    forall j, k | j in after && k in after && j != k && j.kind == k.kind == Group
      ensures !SameTag(Group, after[j], after[k]) && !SameStory(Group, after[j], after[k])
    {
      PairUnique(before, after, nodes, home, idMap, j, k);
    }
  }

  lemma PairUnique(before: Rows, after: Rows, nodes: seq<Node>, home: New, idMap: IdMap, j: Key, k: Key)
    requires Grown(before, after, nodes, home, idMap) && GroupsUnique(before)
    requires j in after && k in after && j != k && j.kind == k.kind == Group
    ensures !SameTag(Group, after[j], after[k]) && !SameStory(Group, after[j], after[k])
  {
    if j !in before && k !in before {
      var a :| a in nodes && KeyFor(a, idMap) == j;
      var b :| b in nodes && KeyFor(b, idMap) == k;
      NewPairUnique(nodes, home, idMap, a, b);
    } else if j !in before {
      var a :| a in nodes && KeyFor(a, idMap) == j;
      NewBesideOld(before, a, home, idMap, k);
    } else if k !in before {
      var b :| b in nodes && KeyFor(b, idMap) == k;
      NewBesideOld(before, b, home, idMap, j);
    }
  }

  // ---- continuations ------------------------------------------------------------------

  lemma RanksGiveOrigins(
      before: Rows, after: Rows, nodes: seq<Node>, home: New, idMap: IdMap, c: Columns, rank: map<New, nat>)
    requires Grown(before, after, nodes, home, idMap) && Lineage.Ranked(FeaturesOf(after, c), rank)
    ensures OriginsEnd(nodes, idMap.Keys)
  {
    var ranks := map x | x in idMap && idMap[x] in rank :: rank[idMap[x]];
    forall n | n in nodes && n.kind == Feature
      ensures n.id in ranks
      ensures Resolves(n, ToOrigin, idMap.Keys) ==>
        && Names(nodes, Feature, n.links[ToOrigin]) && n.links[ToOrigin] in ranks
        && ranks[n.links[ToOrigin]] < ranks[n.id]
    {
      NewLink(n, home, idMap, ToOrigin);
      assert KeyFor(n, idMap).id in FeaturesOf(after, c);
      if Resolves(n, ToOrigin, idMap.Keys) {
        LeadsTo(before, after, nodes, home, idMap, Feature, n.links[ToOrigin]);
      }
    }
    assert OriginsRanked(nodes, idMap.Keys, ranks);
  }

  lemma RankAdded(idMap: IdMap, rank: map<Old, nat>) returns (added: map<New, nat>)
    requires forall x, y :: x in idMap && y in idMap && idMap[x] == idMap[y] ==> x == y
    ensures forall i :: i in added ==> exists x :: x in idMap && idMap[x] == i
    ensures forall x :: x in idMap && x in rank ==> idMap[x] in added && added[idMap[x]] == rank[x]
  {
    added := map x | x in idMap && x in rank :: idMap[x] := rank[x];
  }

  lemma OriginsGiveRanks(
      before: Rows, after: Rows, nodes: seq<Node>, home: New, idMap: IdMap, c: Columns,
      stored: map<New, nat>, rank: map<Old, nat>)
    requires Grown(before, after, nodes, home, idMap)
    requires Lineage.Ranked(FeaturesOf(before, c), stored) && OriginsRanked(nodes, idMap.Keys, rank)
    ensures Lineage.Forest(FeaturesOf(after, c))
  {
    var added := RankAdded(idMap, rank);
    var features, all := FeaturesOf(after, c), stored + added;
    forall id | id in features ensures RankedAt(features, all, id) {
      FeatureRanked(before, after, nodes, home, idMap, c, stored, rank, added, id);
    }
    EachRanked(features, all);
  }

  lemma EachRanked(features: map<New, Board.Feature>, rank: map<New, nat>)
    requires forall id :: id in features ==> RankedAt(features, rank, id)
    ensures Lineage.Forest(features)
  {
    assert Lineage.Ranked(features, rank);
  }

  lemma FeatureRanked(
      before: Rows, after: Rows, nodes: seq<Node>, home: New, idMap: IdMap, c: Columns,
      stored: map<New, nat>, rank: map<Old, nat>, added: map<New, nat>, id: New)
    requires Grown(before, after, nodes, home, idMap)
    requires Lineage.Ranked(FeaturesOf(before, c), stored) && OriginsRanked(nodes, idMap.Keys, rank)
    requires forall i :: i in added ==> exists x :: x in idMap && idMap[x] == i
    requires forall x :: x in idMap && x in rank ==> idMap[x] in added && added[idMap[x]] == rank[x]
    requires id in FeaturesOf(after, c)
    ensures RankedAt(FeaturesOf(after, c), stored + added, id)
  {
    var k := Key(Feature, id);
    if k in before {
      OldFeatureRanked(before, after, nodes, home, idMap, c, stored, added, id);
    } else {
      var n :| n in nodes && KeyFor(n, idMap) == k;
      NewFeatureRanked(before, after, nodes, home, idMap, c, stored, rank, added, n);
    }
  }

  /** The feature has a rank, above that of its origin. */
  predicate RankedAt(features: map<New, Board.Feature>, rank: map<New, nat>, id: New) {
    && id in features && id in rank
    && (features[id].from.Some? ==>
          && features[id].from.value in features && features[id].from.value in rank
          && rank[features[id].from.value] < rank[id])
  }

  lemma OldFeatureRanked(
      before: Rows, after: Rows, nodes: seq<Node>, home: New, idMap: IdMap, c: Columns,
      stored: map<New, nat>, added: map<New, nat>, id: New)
    requires Grown(before, after, nodes, home, idMap) && Lineage.Ranked(FeaturesOf(before, c), stored)
    requires forall i :: i in added ==> exists x :: x in idMap && idMap[x] == i
    requires Key(Feature, id) in before
    ensures RankedAt(FeaturesOf(after, c), stored + added, id)
  {
    var k := Key(Feature, id);
    assert k.id in FeaturesOf(before, c) && k.id in FeaturesOf(after, c);
    var from := FeaturesOf(before, c)[id].from;
    if from.Some? {
      assert from.value in FeaturesOf(before, c) && Key(Feature, from.value) in before;
      assert Key(Feature, from.value).id in FeaturesOf(after, c);
    }
  }

  lemma NewFeatureRanked(
      before: Rows, after: Rows, nodes: seq<Node>, home: New, idMap: IdMap, c: Columns,
      stored: map<New, nat>, rank: map<Old, nat>, added: map<New, nat>, n: Node)
    requires Grown(before, after, nodes, home, idMap) && OriginsRanked(nodes, idMap.Keys, rank)
    requires forall x :: x in idMap && x in rank ==> idMap[x] in added && added[idMap[x]] == rank[x]
    requires n in nodes && n.kind == Feature
    ensures RankedAt(FeaturesOf(after, c), stored + added, idMap[n.id])
  {
    NewLink(n, home, idMap, ToOrigin);
    assert KeyFor(n, idMap).id in FeaturesOf(after, c);
    if Resolves(n, ToOrigin, idMap.Keys) {
      LeadsTo(before, after, nodes, home, idMap, Feature, n.links[ToOrigin]);
      assert Key(Feature, idMap[n.links[ToOrigin]]).id in FeaturesOf(after, c);
    }
  }

  lemma ForestWhen(before: Rows, after: Rows, nodes: seq<Node>, home: New, idMap: IdMap, c: Columns)
    requires Grown(before, after, nodes, home, idMap) && Lineage.Forest(FeaturesOf(before, c))
    ensures Lineage.Forest(FeaturesOf(after, c)) <==> OriginsEnd(nodes, idMap.Keys)
  {
    if Lineage.Forest(FeaturesOf(after, c)) {
      var rank :| Lineage.Ranked(FeaturesOf(after, c), rank);
      RanksGiveOrigins(before, after, nodes, home, idMap, c, rank);
    }
    if OriginsEnd(nodes, idMap.Keys) {
      var stored :| Lineage.Ranked(FeaturesOf(before, c), stored);
      var rank :| OriginsRanked(nodes, idMap.Keys, rank);
      OriginsGiveRanks(before, after, nodes, home, idMap, c, stored, rank);
    }
  }

  // ---- the import ---------------------------------------------------------------------

  /** An import into a whole board leaves it whole exactly when the payload is. */
  lemma ImportKeepsBoardWhen(before: Rows, after: Rows, p: Payload, home: New, idMap: IdMap, c: Columns)
    requires Imported(before, after, p, home, idMap) && Complete(before) && Invariants.Valid(BoardOf(before, c))
    ensures Complete(after) && (Invariants.Valid(BoardOf(after, c)) <==> Whole(p, c))
  {
    assert Grown(before, after, Nodes(p), home, idMap);
    GrownIsComplete(before, after, Nodes(p), home, idMap);
    WholeIsStanding(before, c);
    WholeIsStanding(after, c);
    AllStandWhen(before, after, p, home, idMap, c);
    GroupsStayUnique(before, after, Nodes(p), home, idMap);
    ForestWhen(before, after, Nodes(p), home, idMap, c);
  }

  /** Two features that continue one another are accepted, and leave a board that is not whole. */
  lemma CycleIsAccepted(body: string, c: Columns)
    ensures
      var a, b := Raw("a", None, body, map[ToOrigin := "b"]), Raw("b", None, body, map[ToOrigin := "a"]);
      var p := Payload("p", "name", [], [a, b], [], []);
      Verdict(p) == None && !Whole(p, c)
  {
    var a, b := Raw("a", None, body, map[ToOrigin := "b"]), Raw("b", None, body, map[ToOrigin := "a"]);
    var p := Payload("p", "name", [], [a, b], [], []);
    var m, n := NodeOf(Feature, a, None), NodeOf(Feature, b, None);
    assert Nodes(p) == [m, n];
    assert "a" in RawIds(p.features) && "b" in RawIds(p.features) by {
      assert a in p.features && b in p.features;
    }
    VerdictIs(p);
    assert Resolves(m, ToOrigin, AllIds(p)) && Resolves(n, ToOrigin, AllIds(p));
    assert m in Nodes(p) && n in Nodes(p);
    forall rank ensures !OriginsRanked(Nodes(p), AllIds(p), rank) {
      assert m.links[ToOrigin] == n.id && n.links[ToOrigin] == m.id;
    }
  }
}
