/**
 * What an import does with each object of the payload, said of the object where it stands in the payload and of the
 * row it gets (backend/app/routes/projects.py).
 */
module ImportRequests {
  import opened Wrappers
  import opened ProjectImport

  // ---- the objects of a payload -------------------------------------------------------

  /** An object of this kind, under the object with that id; what lies directly in the project is under none. */
  ghost predicate Holds(p: Payload, kind: Kind, raw: Raw, parent: Option<Old>) {
    match kind
    case State => raw in p.states && parent == None
    case Feature => raw in p.features && parent == None
    case Story => raw in p.stories && parent == None
    case Pi => (exists pi :: pi in p.pis && pi.pi == raw) && parent == None
    case Sprint => exists pi :: pi in p.pis && raw in pi.sprints && parent == Some(pi.pi.id)
    case Event => exists pi :: pi in p.pis && raw in pi.events && parent == Some(pi.pi.id)
    case Lane => exists pi, lane :: pi in p.pis && lane in pi.lanes && raw == lane.lane && parent == Some(pi.pi.id)
    case Group =>
      exists pi, lane :: pi in p.pis && lane in pi.lanes && raw in lane.groups && parent == Some(lane.lane.id)
  }

  /** The fields an object's own references are read from. */
  ghost predicate MayName(kind: Kind, f: Field) {
    match f
    case ToProject => false
    case ToPi => kind == Feature || kind == Story
    case ToLane => kind == Feature || kind == Story
    case ToState => kind == Feature || kind == Story
    case ToOrigin => kind == Feature
    case ToFeature => kind == Group || kind == Story
    case ToStory => kind == Group
    case ToGroup => kind == Story
  }

  /** It refers to the object with that id, by its place or by a reference of its own. */
  ghost predicate Names(kind: Kind, raw: Raw, parent: Option<Old>, f: Field, x: Old) {
    || (f == ToPi && (kind == Lane || kind == Sprint || kind == Event) && parent == Some(x))
    || (f == ToLane && kind == Group && parent == Some(x))
    || (MayName(kind, f) && f in raw.links && raw.links[f] == x)
  }

  /** What lies directly in the project. */
  ghost predicate OfProject(kind: Kind) {
    kind == Pi || kind == State || kind == Feature || kind == Story
  }

  /** As the importer reads it. */
  ghost predicate ReadAs(kind: Kind, raw: Raw, parent: Option<Old>, n: Node) {
    && n.kind == kind && n.id == raw.id && n.tag == raw.tag && n.body == raw.body
    && forall f, x :: (f in n.links && n.links[f] == x) <==> Names(kind, raw, parent, f, x)
  }

  lemma NodeIsRead(kind: Kind, raw: Raw, parent: Option<Old>)
    requires parent.Some? <==> Parent(kind) != ToProject
    ensures ReadAs(kind, raw, parent, NodeOf(kind, raw, parent))
  {}

  lemma ReadOnce(kind: Kind, raw: Raw, parent: Option<Old>, a: Node, b: Node)
    requires ReadAs(kind, raw, parent, a) && ReadAs(kind, raw, parent, b)
    ensures a == b
  {
    forall f ensures (f in a.links <==> f in b.links) && (f in a.links ==> a.links[f] == b.links[f]) {
      assert f in a.links ==> Names(kind, raw, parent, f, a.links[f]);
      assert f in b.links ==> Names(kind, raw, parent, f, b.links[f]);
    }
    assert a.links == b.links;
  }

  // ---- every object is read, once, and nothing else -----------------------------------

  lemma {:induction false} StructuresHold(pis: seq<PiTree>, n: Node)
    ensures n in Structures(pis) <==> exists pi :: pi in pis && n in Structure(pi)
  {
    if pis != [] {
      StructuresHold(pis[..|pis| - 1], n);
      assert pis == pis[..|pis| - 1] + [pis[|pis| - 1]];
    }
  }

  lemma {:induction false} GroupsOfLanesHold(lanes: seq<LaneTree>, n: Node)
    ensures n in GroupsOfLanes(lanes) <==> exists lane :: lane in lanes && n in GroupsOfLane(lane)
  {
    if lanes != [] {
      GroupsOfLanesHold(lanes[..|lanes| - 1], n);
      assert lanes == lanes[..|lanes| - 1] + [lanes[|lanes| - 1]];
    }
  }

  lemma {:induction false} GroupsHold(pis: seq<PiTree>, n: Node)
    ensures n in Groups(pis) <==> exists pi, lane :: pi in pis && lane in pi.lanes && n in GroupsOfLane(lane)
  {
    if pis != [] {
      GroupsHold(pis[..|pis| - 1], n);
      GroupsOfLanesHold(pis[|pis| - 1].lanes, n);
      assert pis == pis[..|pis| - 1] + [pis[|pis| - 1]];
    }
  }

  lemma NodesOfHold(kind: Kind, raws: seq<Raw>, parent: Option<Old>, n: Node)
    requires parent.Some? ==> Parent(kind) != ToProject
    ensures n in NodesOf(kind, raws, parent) <==> exists raw :: raw in raws && n == NodeOf(kind, raw, parent)
  {
    forall raw | raw in raws ensures NodeOf(kind, raw, parent) in NodesOf(kind, raws, parent) {
      var i :| 0 <= i < |raws| && raws[i] == raw;
      assert NodesOf(kind, raws, parent)[i] == NodeOf(kind, raw, parent);
    }
  }

  lemma StructureHolds(pi: PiTree, n: Node)
    ensures n in Structure(pi) <==>
      || n == NodeOf(Pi, pi.pi, None)
      || (exists lane :: lane in pi.lanes && n == NodeOf(Lane, lane.lane, Some(pi.pi.id)))
      || (exists raw :: raw in pi.sprints && n == NodeOf(Sprint, raw, Some(pi.pi.id)))
      || (exists raw :: raw in pi.events && n == NodeOf(Event, raw, Some(pi.pi.id)))
  {
    NodesOfHold(Sprint, pi.sprints, Some(pi.pi.id), n);
    NodesOfHold(Event, pi.events, Some(pi.pi.id), n);
    forall lane | lane in pi.lanes ensures NodeOf(Lane, lane.lane, Some(pi.pi.id)) in LaneNodes(pi.lanes, pi.pi.id) {
      var i :| 0 <= i < |pi.lanes| && pi.lanes[i] == lane;
      assert LaneNodes(pi.lanes, pi.pi.id)[i] == NodeOf(Lane, lane.lane, Some(pi.pi.id));
    }
  }

  /** What stands in the payload is read. */
  lemma HeldIsRead(p: Payload, kind: Kind, raw: Raw, parent: Option<Old>)
    requires Holds(p, kind, raw, parent)
    ensures parent.Some? <==> Parent(kind) != ToProject
    ensures NodeOf(kind, raw, parent) in Nodes(p)
  {
    var n := NodeOf(kind, raw, parent);
    match kind
    case State => NodesOfHold(State, p.states, None, n);
    case Feature => NodesOfHold(Feature, p.features, None, n);
    case Story => NodesOfHold(Story, p.stories, None, n);
    case Pi =>
      var pi :| pi in p.pis && pi.pi == raw;
      StructureHolds(pi, n);
      StructuresHold(p.pis, n);
    case Sprint =>
      var pi :| pi in p.pis && raw in pi.sprints && parent == Some(pi.pi.id);
      StructureHolds(pi, n);
      StructuresHold(p.pis, n);
    case Event =>
      var pi :| pi in p.pis && raw in pi.events && parent == Some(pi.pi.id);
      StructureHolds(pi, n);
      StructuresHold(p.pis, n);
    case Lane =>
      var pi, lane :| pi in p.pis && lane in pi.lanes && raw == lane.lane && parent == Some(pi.pi.id);
      StructureHolds(pi, n);
      StructuresHold(p.pis, n);
    case Group =>
      var pi, lane :| pi in p.pis && lane in pi.lanes && raw in lane.groups && parent == Some(lane.lane.id);
      NodesOfHold(Group, lane.groups, Some(lane.lane.id), n);
      assert n in GroupsOfLane(lane);
      GroupsHold(p.pis, n);
  }

  ghost predicate Comes(p: Payload, n: Node, raw: Raw, parent: Option<Old>) {
    Holds(p, n.kind, raw, parent) && ReadAs(n.kind, raw, parent, n)
  }

  /** What is read stands in the payload. */
  lemma ReadIsHeld(p: Payload, n: Node) returns (raw: Raw, parent: Option<Old>)
    requires n in Nodes(p)
    ensures Comes(p, n, raw, parent)
  {
    NodesOfHold(State, p.states, None, n);
    NodesOfHold(Feature, p.features, None, n);
    NodesOfHold(Story, p.stories, None, n);
    if n in States(p) + Features(p) + Stories(p) {
      parent := None;
      if n in States(p) {
        raw :| raw in p.states && n == NodeOf(State, raw, None);
      } else if n in Features(p) {
        raw :| raw in p.features && n == NodeOf(Feature, raw, None);
      } else {
        raw :| raw in p.stories && n == NodeOf(Story, raw, None);
      }
      NodeIsRead(n.kind, raw, None);
    } else if n in Structures(p.pis) {
      StructuresHold(p.pis, n);
      var pi :| pi in p.pis && n in Structure(pi);
      raw, parent := StructureIsHeld(p, pi, n);
    } else {
      GroupsHold(p.pis, n);
      var pi, lane :| pi in p.pis && lane in pi.lanes && n in GroupsOfLane(lane);
      NodesOfHold(Group, lane.groups, Some(lane.lane.id), n);
      raw :| raw in lane.groups && n == NodeOf(Group, raw, Some(lane.lane.id));
      parent := Some(lane.lane.id);
      NodeIsRead(Group, raw, parent);
    }
  }

  lemma StructureIsHeld(p: Payload, pi: PiTree, n: Node) returns (raw: Raw, parent: Option<Old>)
    requires pi in p.pis && n in Structure(pi)
    ensures Comes(p, n, raw, parent)
  {
    StructureHolds(pi, n);
    parent := if n.kind == Pi then None else Some(pi.pi.id);
    if n == NodeOf(Pi, pi.pi, None) {
      raw := pi.pi;
    } else if lane :| lane in pi.lanes && n == NodeOf(Lane, lane.lane, Some(pi.pi.id)) {
      raw := lane.lane;
    } else if s :| s in pi.sprints && n == NodeOf(Sprint, s, Some(pi.pi.id)) {
      raw := s;
    } else {
      raw :| raw in pi.events && n == NodeOf(Event, raw, Some(pi.pi.id));
    }
    NodeIsRead(n.kind, raw, parent);
  }

  // ---- the rows -----------------------------------------------------------------------

  /** The payload knows its project and its objects, and no others. */
  ghost predicate Knows(p: Payload, x: Old) {
    x == p.project || exists kind, raw, parent :: Holds(p, kind, raw, parent) && raw.id == x
  }

  lemma KnowsWhen(p: Payload, x: Old)
    ensures x in AllIds(p) <==> Knows(p, x)
  {
    ObjectIdsAre(p);
    if x in ObjectIds(p) {
      var n :| n in Nodes(p) && n.id == x;
      var raw, parent := ReadIsHeld(p, n);
      assert Holds(p, n.kind, raw, parent) && raw.id == x;
    }
    if kind, raw, parent :| Holds(p, kind, raw, parent) && raw.id == x {
      HeldIsRead(p, kind, raw, parent);
      assert NodeOf(kind, raw, parent).id == x;
    }
  }

  /** Words and references of the object: those that name something known, each to the new id of what it names. */
  ghost predicate IsRowOf(p: Payload, kind: Kind, raw: Raw, parent: Option<Old>, row: Row, home: New, idMap: IdMap) {
    && row.tag == raw.tag && row.body == raw.body
    && (ToProject in row.links <==> OfProject(kind))
    && (OfProject(kind) ==> row.links[ToProject] == home)
    && (forall f, x :: Names(kind, raw, parent, f, x) && Knows(p, x) ==>
          x in idMap && f in row.links && row.links[f] == idMap[x])
    && (forall f :: f in row.links && f != ToProject ==>
          exists x :: Names(kind, raw, parent, f, x) && Knows(p, x))
  }

  lemma RowIsOf(
      p: Payload, home: New, idMap: IdMap, kind: Kind, raw: Raw, parent: Option<Old>, n: Node)
    requires ReadAs(kind, raw, parent, n) && idMap.Keys == AllIds(p) && ToProject !in n.links
    ensures IsRowOf(p, kind, raw, parent, FinalRow(n, home, idMap), home, idMap)
  {
    var row := FinalRow(n, home, idMap);
    forall f, x | Names(kind, raw, parent, f, x) && Knows(p, x)
      ensures x in idMap && f in row.links && row.links[f] == idMap[x]
    {
      KnowsWhen(p, x);
      EveryField(f);
      assert f in n.links && n.links[f] == x;
    }
    forall f | f in row.links && f != ToProject ensures exists x :: Names(kind, raw, parent, f, x) && Knows(p, x) {
      KnowsWhen(p, n.links[f]);
      assert Names(kind, raw, parent, f, n.links[f]);
    }
  }

  /** Every object of the payload has a new row of its kind, with its words and its references. */
  lemma EveryObjectHasRow(
      before: Rows, after: Rows, p: Payload, home: New, idMap: IdMap, kind: Kind, raw: Raw, parent: Option<Old>)
    requires Imported(before, after, p, home, idMap) && Holds(p, kind, raw, parent)
    ensures raw.id in idMap
    ensures
      var k := Key(kind, idMap[raw.id]);
      k in after && k !in before && IsRowOf(p, kind, raw, parent, after[k], home, idMap)
  {
    HeldIsRead(p, kind, raw, parent);
    NodeIsRead(kind, raw, parent);
    RowIsOf(p, home, idMap, kind, raw, parent, NodeOf(kind, raw, parent));
  }

  /** Every new row is that of an object of the payload, and no old row is touched. */
  lemma EveryRowHasObject(before: Rows, after: Rows, p: Payload, home: New, idMap: IdMap, k: Key)
    requires Imported(before, after, p, home, idMap) && k in after
    ensures k in before ==> after[k] == before[k]
    ensures k !in before ==>
      exists raw, parent :: Holds(p, k.kind, raw, parent) && raw.id in idMap && idMap[raw.id] == k.id
  {
    if k !in before {
      var n :| n in Nodes(p) && KeyFor(n, idMap) == k;
      var raw, parent := ReadIsHeld(p, n);
      assert Holds(p, k.kind, raw, parent) && raw.id in idMap && idMap[raw.id] == k.id;
    }
  }

  // ---- what is refused ----------------------------------------------------------------

  /** A group or story that names no feature, or one the payload does not know. */
  ghost predicate Lost(p: Payload, kind: Kind, raw: Raw) {
    (kind == Group || kind == Story) && (ToFeature in raw.links ==> !Knows(p, raw.links[ToFeature]))
  }

  /** One id, or one name or number under one parent, or two implicit groups of one story. */
  ghost predicate Clash(p: Payload, kind: Kind, a: Raw, inA: Option<Old>, b: Raw, inB: Option<Old>) {
    || a.id == b.id
    || (a.tag.Some? && a.tag == b.tag && inA == inB)
    || (kind == Group && a.tag.None? && b.tag.None? && ToStory in a.links && ToStory in b.links
        && a.links[ToStory] == b.links[ToStory] && Knows(p, a.links[ToStory]))
  }

  /** Nothing the importer reads of the two is different. */
  ghost predicate Alike(kind: Kind, a: Raw, inA: Option<Old>, b: Raw, inB: Option<Old>) {
    && a.id == b.id && a.tag == b.tag && a.body == b.body
    && forall f, x :: Names(kind, a, inA, f, x) <==> Names(kind, b, inB, f, x)
  }

  lemma LostWhen(p: Payload, kind: Kind, raw: Raw, parent: Option<Old>, n: Node)
    requires ReadAs(kind, raw, parent, n)
    ensures IsDangling(n, AllIds(p)) <==> Lost(p, kind, raw)
  {
    if ToFeature in raw.links {
      KnowsWhen(p, raw.links[ToFeature]);
      assert Names(kind, raw, parent, ToFeature, raw.links[ToFeature]) <==> kind == Group || kind == Story;
    }
    if ToFeature in n.links {
      assert Names(kind, raw, parent, ToFeature, n.links[ToFeature]);
    }
  }

  lemma ClashWhen(
      p: Payload, kind: Kind, a: Raw, inA: Option<Old>, b: Raw, inB: Option<Old>, m: Node, n: Node)
    requires ReadAs(kind, a, inA, m) && ReadAs(kind, b, inB, n)
    requires OfProject(kind) <==> inA.None?
    requires OfProject(kind) <==> inB.None?
    ensures Clash(p, kind, a, inA, b, inB) <==> Conflict(m, n) || SharesStory(m, n, AllIds(p))
  {
    if kind == Group {
      StoryIsRead(a, inA, m);
      StoryIsRead(b, inB, n);
      if ToStory in a.links {
        KnowsWhen(p, a.links[ToStory]);
      }
    }
    if inA.Some? {
      PlaceIsRead(kind, a, inA, m);
      PlaceIsRead(kind, b, inB, n);
    }
  }

  lemma StoryIsRead(raw: Raw, parent: Option<Old>, n: Node)
    requires ReadAs(Group, raw, parent, n)
    ensures ToStory in n.links <==> ToStory in raw.links
    ensures ToStory in n.links ==> n.links[ToStory] == raw.links[ToStory]
  {
    assert ToStory in n.links ==> Names(Group, raw, parent, ToStory, n.links[ToStory]);
    assert ToStory in raw.links ==> Names(Group, raw, parent, ToStory, raw.links[ToStory]);
  }

  lemma PlaceIsRead(kind: Kind, raw: Raw, parent: Option<Old>, n: Node)
    requires ReadAs(kind, raw, parent, n) && parent.Some? && !OfProject(kind)
    ensures Parent(kind) in n.links && n.links[Parent(kind)] == parent.value
  {
    assert Names(kind, raw, parent, Parent(kind), parent.value);
  }

  lemma HeldPlaces(p: Payload, kind: Kind, raw: Raw, parent: Option<Old>)
    requires Holds(p, kind, raw, parent)
    ensures OfProject(kind) <==> parent.None?
  {}

  /** What is accepted: no group or story has lost its feature, and no two different objects clash. */
  lemma AcceptedHas(p: Payload, kind: Kind, a: Raw, inA: Option<Old>, b: Raw, inB: Option<Old>)
    requires Verdict(p) == None && Holds(p, kind, a, inA) && Holds(p, kind, b, inB)
    ensures !Lost(p, kind, a)
    ensures Clash(p, kind, a, inA, b, inB) ==> Alike(kind, a, inA, b, inB)
  {
    VerdictIs(p);
    HeldIsRead(p, kind, a, inA);
    HeldIsRead(p, kind, b, inB);
    var m, n := NodeOf(kind, a, inA), NodeOf(kind, b, inB);
    NodeIsRead(kind, a, inA);
    NodeIsRead(kind, b, inB);
    LostWhen(p, kind, a, inA, m);
    HeldPlaces(p, kind, a, inA);
    HeldPlaces(p, kind, b, inB);
    ClashWhen(p, kind, a, inA, b, inB, m, n);
    if m != n {
      NodesShareNot(Nodes(p), m, n, AllIds(p));
      NodesConflictNot(Nodes(p), m, n);
    }
  }

  lemma NodesConflictNot(nodes: seq<Node>, a: Node, b: Node)
    requires Apart(nodes) && a in nodes && b in nodes && a != b
    ensures !Conflict(a, b)
  {
    var i :| 0 <= i < |nodes| && nodes[i] == a;
    var j :| 0 <= j < |nodes| && nodes[j] == b;
    if i < j {
      assert !Conflict(nodes[i], nodes[j]);
    } else {
      assert !Conflict(nodes[j], nodes[i]);
    }
  }

  /** A reference is only missed where some group or story has lost its feature. */
  lemma DanglingHas(p: Payload)
    requires Verdict(p) == Some(Dangling)
    ensures exists kind, raw, parent :: Holds(p, kind, raw, parent) && Lost(p, kind, raw)
  {
    var n :| n in Nodes(p) && IsDangling(n, AllIds(p));
    var raw, parent := ReadIsHeld(p, n);
    LostWhen(p, n.kind, raw, parent, n);
    assert Holds(p, n.kind, raw, parent) && Lost(p, n.kind, raw);
  }

  /** An index only refuses a payload with two objects that clash, or with one object in it twice. */
  lemma IntegrityHas(p: Payload)
    requires Verdict(p) == Some(Integrity)
    ensures
      || (exists i, j :: 0 <= i < j < |Nodes(p)| && Nodes(p)[i] == Nodes(p)[j])
      || (exists kind, a, inA, b, inB ::
            Holds(p, kind, a, inA) && Holds(p, kind, b, inB) && Clash(p, kind, a, inA, b, inB)
            && !Alike(kind, a, inA, b, inB))
  {
    assert !Apart(Nodes(p)) || !StoriesApart(Nodes(p), AllIds(p)) by {
      IntegrityOfAll(p);
    }
    var i, j :| 0 <= i < j < |Nodes(p)|
      && (Conflict(Nodes(p)[i], Nodes(p)[j]) || SharesStory(Nodes(p)[i], Nodes(p)[j], AllIds(p)));
    if Nodes(p)[i] != Nodes(p)[j] {
      ClashIsHeld(p, Nodes(p)[i], Nodes(p)[j]);
    }
  }

  lemma ClashIsHeld(p: Payload, m: Node, n: Node)
    requires m in Nodes(p) && n in Nodes(p) && m != n
    requires Conflict(m, n) || SharesStory(m, n, AllIds(p))
    ensures exists kind, a, inA, b, inB ::
      Holds(p, kind, a, inA) && Holds(p, kind, b, inB) && Clash(p, kind, a, inA, b, inB)
      && !Alike(kind, a, inA, b, inB)
  {
    var kind := m.kind;
    var a, inA := ReadIsHeld(p, m);
    var b, inB := ReadIsHeld(p, n);
    assert Holds(p, kind, a, inA) && Holds(p, kind, b, inB);
    HeldPlaces(p, kind, a, inA);
    HeldPlaces(p, kind, b, inB);
    ClashWhen(p, kind, a, inA, b, inB, m, n);
    if Alike(kind, a, inA, b, inB) {
      ReadAlike(kind, a, inA, b, inB, m);
      ReadOnce(kind, b, inB, m, n);
    }
  }

  lemma ReadAlike(kind: Kind, a: Raw, inA: Option<Old>, b: Raw, inB: Option<Old>, n: Node)
    requires ReadAs(kind, a, inA, n) && Alike(kind, a, inA, b, inB)
    ensures ReadAs(kind, b, inB, n)
  {
    forall f, x ensures (f in n.links && n.links[f] == x) <==> Names(kind, b, inB, f, x) {
      assert Names(kind, a, inA, f, x) <==> Names(kind, b, inB, f, x);
    }
  }

  lemma IntegrityOfAll(p: Payload)
    requires Verdict(p) == Some(Integrity)
    ensures !Apart(Nodes(p)) || !StoriesApart(Nodes(p), AllIds(p))
  {
    var early := Structures(p.pis) + States(p) + Features(p);
    if Apart(Nodes(p)) {
      ApartPrefix(early + Groups(p.pis), Stories(p));
      ApartPrefix(early, Groups(p.pis));
    }
  }

  /** Rows above the groups are flushed first: a clash among them is what is answered, whatever else is wrong. */
  lemma EarlyClashComesFirst(p: Payload, kind: Kind, a: Raw, inA: Option<Old>, b: Raw, inB: Option<Old>)
    requires Holds(p, kind, a, inA) && Holds(p, kind, b, inB) && kind != Group && kind != Story
    requires Clash(p, kind, a, inA, b, inB) && !Alike(kind, a, inA, b, inB)
    ensures Verdict(p) == Some(Integrity)
  {
    var m, n := HeldConflict(p, kind, a, inA, b, inB);
    var early := Structures(p.pis) + States(p) + Features(p);
    KindsOf(p);
    if Apart(early) {
      NodesConflictNot(early, m, n);
    }
  }

  /** Then the groups: with each group's feature known, a clash of two groups is answered before any story is read. */
  lemma GroupClashComesNext(p: Payload, a: Raw, inA: Option<Old>, b: Raw, inB: Option<Old>)
    requires Holds(p, Group, a, inA) && Holds(p, Group, b, inB)
    requires a.id == b.id || (a.tag.Some? && a.tag == b.tag && inA == inB)
    requires !Alike(Group, a, inA, b, inB)
    requires forall raw, parent :: Holds(p, Group, raw, parent) ==> !Lost(p, Group, raw)
    ensures Verdict(p) == Some(Integrity)
  {
    var m, n := HeldConflict(p, Group, a, inA, b, inB);
    var early := Structures(p.pis) + States(p) + Features(p);
    KindsOf(p);
    if Apart(early + Groups(p.pis)) {
      NodesConflictNot(early + Groups(p.pis), m, n);
    }
    forall g | g in Groups(p.pis) ensures !IsDangling(g, AllIds(p)) {
      var raw, parent := ReadIsHeld(p, g);
      LostWhen(p, Group, raw, parent, g);
    }
  }

  lemma KindsOf(p: Payload)
    ensures forall n :: n in Groups(p.pis) ==> n.kind == Group
    ensures forall n :: n in Stories(p) ==> n.kind == Story
  {
    StructuresKinds(p.pis);
  }

  lemma HeldConflict(p: Payload, kind: Kind, a: Raw, inA: Option<Old>, b: Raw, inB: Option<Old>)
    returns (m: Node, n: Node)
    requires Holds(p, kind, a, inA) && Holds(p, kind, b, inB) && !Alike(kind, a, inA, b, inB)
    requires Clash(p, kind, a, inA, b, inB)
    requires kind == Group ==> a.id == b.id || (a.tag.Some? && a.tag == b.tag && inA == inB)
    ensures m in Nodes(p) && n in Nodes(p) && m != n && m.kind == n.kind == kind && Conflict(m, n)
  {
    HeldIsRead(p, kind, a, inA);
    HeldIsRead(p, kind, b, inB);
    m, n := NodeOf(kind, a, inA), NodeOf(kind, b, inB);
    NodeIsRead(kind, a, inA);
    NodeIsRead(kind, b, inB);
    HeldPlaces(p, kind, a, inA);
    HeldPlaces(p, kind, b, inB);
    ClashWhen(p, kind, a, inA, b, inB, m, n);
    if inA.Some? {
      PlaceIsRead(kind, a, inA, m);
      PlaceIsRead(kind, b, inB, n);
    }
    if m == n {
      ReadTheSame(kind, a, inA, b, inB, m);
    }
  }

  lemma ReadTheSame(kind: Kind, a: Raw, inA: Option<Old>, b: Raw, inB: Option<Old>, n: Node)
    requires ReadAs(kind, a, inA, n) && ReadAs(kind, b, inB, n)
    ensures Alike(kind, a, inA, b, inB)
  {
    forall f, x ensures Names(kind, a, inA, f, x) <==> Names(kind, b, inB, f, x) {
      assert Names(kind, a, inA, f, x) <==> f in n.links && n.links[f] == x;
    }
  }
}
