/**
 * Importing an exported project (backend/app/routes/projects.py): every object gets a fresh id, rows are added in
 * one pass, and links that may point forward are set in a second.
 *
 * What a row holds besides its id, its links and what the unique indexes look at is opaque. A reference that is
 * absent, null or empty is not there.
 */
module ProjectImport {
  import opened Wrappers

  type Old = string
  type New = nat

  datatype Kind = Pi | Lane | Sprint | Event | State | Feature | Group | Story

  datatype Field = ToProject | ToPi | ToLane | ToState | ToFeature | ToGroup | ToOrigin | ToStory

  // ---- the payload --------------------------------------------------------------------

  /**
   * The tag is the name or number that may be taken once under one parent: of a PI, a swimlane or an explicit group
   * the name, of a sprint its index, of a feature or a story the item id, of a State its list and folded value. An
   * event has none, nor has an implicit group.
   */
  datatype Raw = Raw(id: Old, tag: Option<string>, body: string, links: map<Field, Old>)

  datatype LaneTree = LaneTree(lane: Raw, groups: seq<Raw>)

  datatype PiTree = PiTree(pi: Raw, lanes: seq<LaneTree>, sprints: seq<Raw>, events: seq<Raw>)

  datatype Payload = Payload(
    project: Old, name: string, states: seq<Raw>, features: seq<Raw>, stories: seq<Raw>, pis: seq<PiTree>)

  /** An object of the payload as the importer reads it, its place in the tree included among its links. */
  datatype Node = Node(kind: Kind, id: Old, tag: Option<string>, body: string, links: map<Field, Old>)

  function Reads(kind: Kind): set<Field> {
    match kind
    case Feature => {ToPi, ToLane, ToState, ToOrigin}
    case Group => {ToFeature, ToStory}
    case Story => {ToFeature, ToPi, ToLane, ToGroup, ToState}
    case _ => {}
  }

  /** Where an object of this kind has its place. */
  function Parent(kind: Kind): Field {
    match kind
    case Lane => ToPi
    case Sprint => ToPi
    case Event => ToPi
    case Group => ToLane
    case _ => ToProject
  }

  /** The parent is named by its place in the tree, but for the project, which the importer knows by its new id. */
  function NodeOf(kind: Kind, raw: Raw, parent: Option<Old>): (n: Node)
    requires parent.Some? ==> Parent(kind) != ToProject
    ensures parent.Some? ==> Parent(kind) in n.links && n.links[Parent(kind)] == parent.value
    ensures ToProject !in n.links
  {
    var links := map f | f in raw.links && f in Reads(kind) :: raw.links[f];
    Node(kind, raw.id, raw.tag, raw.body, if parent.Some? then links[Parent(kind) := parent.value] else links)
  }

  function NodesOf(kind: Kind, raws: seq<Raw>, parent: Option<Old>): seq<Node>
    requires parent.Some? ==> Parent(kind) != ToProject
  {
    seq(|raws|, i requires 0 <= i < |raws| => NodeOf(kind, raws[i], parent))
  }

  function LaneNodes(lanes: seq<LaneTree>, pi: Old): seq<Node> {
    seq(|lanes|, i requires 0 <= i < |lanes| => NodeOf(Lane, lanes[i].lane, Some(pi)))
  }

  function Structure(pi: PiTree): seq<Node> {
    [NodeOf(Pi, pi.pi, None)] + LaneNodes(pi.lanes, pi.pi.id)
    + NodesOf(Sprint, pi.sprints, Some(pi.pi.id)) + NodesOf(Event, pi.events, Some(pi.pi.id))
  }

  function GroupsOfLane(lane: LaneTree): seq<Node> {
    NodesOf(Group, lane.groups, Some(lane.lane.id))
  }

  function GroupsOfLanes(lanes: seq<LaneTree>): seq<Node> {
    if lanes == [] then [] else GroupsOfLanes(lanes[..|lanes| - 1]) + GroupsOfLane(lanes[|lanes| - 1])
  }

  function Structures(pis: seq<PiTree>): seq<Node> {
    if pis == [] then [] else Structures(pis[..|pis| - 1]) + Structure(pis[|pis| - 1])
  }

  function Groups(pis: seq<PiTree>): seq<Node> {
    if pis == [] then [] else Groups(pis[..|pis| - 1]) + GroupsOfLanes(pis[|pis| - 1].lanes)
  }

  function States(p: Payload): seq<Node> {
    NodesOf(State, p.states, None)
  }

  function Features(p: Payload): seq<Node> {
    NodesOf(Feature, p.features, None)
  }

  function Stories(p: Payload): seq<Node> {
    NodesOf(Story, p.stories, None)
  }

  /** Every object, in the order its row is added. */
  function Nodes(p: Payload): seq<Node> {
    Structures(p.pis) + States(p) + Features(p) + Groups(p.pis) + Stories(p)
  }

  // ---- rows ---------------------------------------------------------------------------

  /** Each kind has a table of its own. */
  datatype Key = Key(kind: Kind, id: New)

  datatype Row = Row(tag: Option<string>, body: string, links: map<Field, New>)

  type Rows = map<Key, Row>

  type IdMap = map<Old, New>

  datatype Error = Dangling | Integrity

  /** References kept through the id map; one that is not in it is dropped. */
  function Remapped(links: map<Field, Old>, idMap: IdMap, fields: set<Field>): map<Field, New> {
    map f | f in links && f in fields && links[f] in idMap :: idMap[links[f]]
  }

  const ALL := {ToPi, ToLane, ToState, ToFeature, ToGroup, ToOrigin, ToStory}
  const LATE := {ToOrigin, ToStory}

  function KeyFor(n: Node, idMap: IdMap): Key
    requires n.id in idMap
  {
    Key(n.kind, idMap[n.id])
  }

  /** A group and a story must name their feature; the name may be any object's. */
  predicate IsDangling(n: Node, known: set<Old>) {
    (n.kind == Group || n.kind == Story) && !(ToFeature in n.links && n.links[ToFeature] in known)
  }

  /** The references an object names itself, through the id map; what belongs to the project names the new one. */
  function LinksOf(n: Node, home: New, idMap: IdMap, fields: set<Field>): map<Field, New> {
    var named := Remapped(n.links, idMap, fields);
    if Parent(n.kind) == ToProject then named[ToProject := home] else named
  }

  function EarlyRow(n: Node, home: New, idMap: IdMap): Row {
    Row(n.tag, n.body, LinksOf(n, home, idMap, ALL - LATE))
  }

  function FinalRow(n: Node, home: New, idMap: IdMap): Row {
    Row(n.tag, n.body, LinksOf(n, home, idMap, ALL))
  }

  /** Every object has its id in the map, and so has its parent. */
  predicate Known(nodes: seq<Node>, idMap: IdMap) {
    forall n :: n in nodes ==> Placed(n, idMap)
  }

  predicate Placed(n: Node, idMap: IdMap) {
    && n.id in idMap && ToProject !in n.links
    && (Parent(n.kind) != ToProject ==> Parent(n.kind) in n.links && n.links[Parent(n.kind)] in idMap)
  }

  ghost function KeysOf(nodes: seq<Node>, idMap: IdMap): set<Key>
    requires Known(nodes, idMap)
  {
    set n | n in nodes :: KeyFor(n, idMap)
  }

  // ---- unique indexes -----------------------------------------------------------------

  /** The index on tags: two rows of one kind with one tag under one parent. */
  predicate SameTag(kind: Kind, a: Row, b: Row) {
    && a.tag.Some? && a.tag == b.tag
    && Parent(kind) in a.links && Parent(kind) in b.links && a.links[Parent(kind)] == b.links[Parent(kind)]
  }

  /** The index on implicit groups: two of them for one story. */
  predicate SameStory(kind: Kind, a: Row, b: Row) {
    && kind == Group && a.tag.None? && b.tag.None?
    && ToStory in a.links && ToStory in b.links && a.links[ToStory] == b.links[ToStory]
  }

  predicate StoriesUnique(rows: Rows) {
    forall j, k :: j in rows && k in rows && j != k && j.kind == k.kind ==> !SameStory(j.kind, rows[j], rows[k])
  }

  /** Two objects of the payload that cannot both have a row. */
  predicate Conflict(a: Node, b: Node) {
    a.kind == b.kind && (a.id == b.id || (a.tag.Some? && a.tag == b.tag && SameParent(a, b)))
  }

  predicate SameParent(a: Node, b: Node) {
    || Parent(a.kind) == ToProject
    || (Parent(a.kind) in a.links && Parent(a.kind) in b.links && a.links[Parent(a.kind)] == b.links[Parent(a.kind)])
  }

  /** Two implicit groups of one story of the payload. */
  predicate SharesStory(a: Node, b: Node, known: set<Old>) {
    && a.kind == Group && b.kind == Group && a.tag.None? && b.tag.None?
    && ToStory in a.links && ToStory in b.links && a.links[ToStory] == b.links[ToStory] && a.links[ToStory] in known
  }

  ghost predicate Apart(nodes: seq<Node>) {
    forall i, j :: 0 <= i < j < |nodes| ==> !Conflict(nodes[i], nodes[j])
  }

  ghost predicate StoriesApart(nodes: seq<Node>, known: set<Old>) {
    forall i, j :: 0 <= i < j < |nodes| ==> !SharesStory(nodes[i], nodes[j], known)
  }

  ghost predicate AnyDangling(nodes: seq<Node>, known: set<Old>) {
    exists n :: n in nodes && IsDangling(n, known)
  }

  /**
   * What becomes of a payload, in the order the importer meets it: the database complains when rows are flushed, a
   * missing feature is found while they are still being read.
   */
  ghost function Verdict(p: Payload): Option<Error> {
    var known := AllIds(p);
    var early := Structures(p.pis) + States(p) + Features(p);
    if !Apart(early) then Some(Integrity)
    else if AnyDangling(Groups(p.pis), known) then Some(Dangling)
    else if !Apart(early + Groups(p.pis)) then Some(Integrity)
    else if AnyDangling(Stories(p), known) then Some(Dangling)
    else if !Apart(Nodes(p)) || !StoriesApart(Nodes(p), known) then Some(Integrity)
    else None
  }

  lemma ApartPrefix(a: seq<Node>, b: seq<Node>)
    requires Apart(a + b)
    ensures Apart(a)
  {
    forall i, j | 0 <= i < j < |a| ensures !Conflict(a[i], a[j]) {
      assert (a + b)[i] == a[i] && (a + b)[j] == a[j];
    }
  }

  /** A payload is imported exactly when no required reference dangles and no two of its objects conflict. */
  lemma VerdictIs(p: Payload)
    ensures Verdict(p) == None <==>
      Apart(Nodes(p)) && StoriesApart(Nodes(p), AllIds(p)) && !AnyDangling(Nodes(p), AllIds(p))
  {
    var early := Structures(p.pis) + States(p) + Features(p);
    if Apart(Nodes(p)) {
      ApartPrefix(early + Groups(p.pis), Stories(p));
      ApartPrefix(early, Groups(p.pis));
    }
    StructuresKinds(p.pis);
    NodesOfKind(State, p.states, None);
    NodesOfKind(Feature, p.features, None);
  }

  // ---- the first pass -----------------------------------------------------------------

  /** New ids, the project's among them, that no stored row has or refers to. */
  ghost predicate FreshMap(before: Rows, home: New, idMap: IdMap) {
    && (forall k :: k in before ==> k.id != home)
    && (forall k, f :: k in before && f in before[k].links ==> before[k].links[f] != home)
    && (forall k, x :: k in before && x in idMap ==> k.id != idMap[x])
    && (forall k, f, x :: k in before && f in before[k].links && x in idMap ==> before[k].links[f] != idMap[x])
    && (forall x, y :: x in idMap && y in idMap && idMap[x] == idMap[y] ==> x == y)
  }

  /** These nodes have their early rows, and nothing else has happened. */
  ghost predicate Added(before: Rows, rows: Rows, nodes: seq<Node>, home: New, idMap: IdMap)
    requires Known(nodes, idMap)
  {
    && Apart(nodes)
    && rows.Keys == before.Keys + KeysOf(nodes, idMap)
    && (forall k :: k in before ==> rows[k] == before[k])
    && (forall n :: n in nodes ==> KeyFor(n, idMap) in rows && rows[KeyFor(n, idMap)] == EarlyRow(n, home, idMap))
  }

  predicate Refused(rows: Rows, k: Key, row: Row) {
    k in rows || exists j :: j in rows && j.kind == k.kind && SameTag(k.kind, rows[j], row)
  }

  lemma ParentIsKept(n: Node, home: New, idMap: IdMap)
    requires Placed(n, idMap)
    ensures Parent(n.kind) in EarlyRow(n, home, idMap).links
    ensures EarlyRow(n, home, idMap).links[Parent(n.kind)] ==
      if Parent(n.kind) == ToProject then home else idMap[n.links[Parent(n.kind)]]
  {
    assert Parent(n.kind) == ToProject || Parent(n.kind) in ALL - LATE;
  }

  /** The rows of two objects of one kind clash exactly when the objects conflict. */
  lemma RowsClashWhen(before: Rows, m: Node, n: Node, home: New, idMap: IdMap)
    requires Placed(m, idMap) && Placed(n, idMap) && FreshMap(before, home, idMap) && m.kind == n.kind
    ensures Conflict(m, n) <==>
      || KeyFor(m, idMap) == KeyFor(n, idMap)
      || SameTag(n.kind, EarlyRow(m, home, idMap), EarlyRow(n, home, idMap))
  {
    ParentIsKept(m, home, idMap);
    ParentIsKept(n, home, idMap);
  }

  lemma StoredRowsNeverClash(before: Rows, j: Key, n: Node, home: New, idMap: IdMap)
    requires Placed(n, idMap) && FreshMap(before, home, idMap) && j in before
    ensures j != KeyFor(n, idMap) && !SameTag(n.kind, before[j], EarlyRow(n, home, idMap))
  {
    ParentIsKept(n, home, idMap);
  }

  /** The database refuses one more row exactly when its object conflicts with one already there. */
  lemma RefusedWhen(before: Rows, rows: Rows, done: seq<Node>, n: Node, home: New, idMap: IdMap)
    requires Known(done, idMap) && Placed(n, idMap) && FreshMap(before, home, idMap)
    requires Added(before, rows, done, home, idMap)
    ensures Refused(rows, KeyFor(n, idMap), EarlyRow(n, home, idMap)) <==> exists m :: m in done && Conflict(m, n)
  {
    var k, row := KeyFor(n, idMap), EarlyRow(n, home, idMap);
    if Refused(rows, k, row) {
      var j :| j in rows && j.kind == k.kind && (j == k || SameTag(k.kind, rows[j], row));
      if j in before {
        StoredRowsNeverClash(before, j, n, home, idMap);
        assert false;
      } else {
        var m :| m in done && KeyFor(m, idMap) == j;
        RowsClashWhen(before, m, n, home, idMap);
      }
    }
    if m :| m in done && Conflict(m, n) {
      RowsClashWhen(before, m, n, home, idMap);
      assert KeyFor(m, idMap) in rows;
    }
  }

  lemma ApartOneMore(done: seq<Node>, n: Node)
    requires Apart(done)
    ensures Apart(done + [n]) <==> !exists m :: m in done && Conflict(m, n)
  {
    if m :| m in done && Conflict(m, n) {
      var i :| 0 <= i < |done| && done[i] == m;
      assert (done + [n])[i] == m && (done + [n])[|done|] == n;
    }
    if !exists m :: m in done && Conflict(m, n) {
      forall i | 0 <= i < |done| ensures !Conflict(done[i], n) {
        assert done[i] in done;
      }
    }
  }

  lemma AddedOneMore(before: Rows, rows: Rows, done: seq<Node>, n: Node, home: New, idMap: IdMap)
    requires Known(done, idMap) && Placed(n, idMap) && FreshMap(before, home, idMap)
    requires Added(before, rows, done, home, idMap)
    requires Apart(done + [n]) && KeyFor(n, idMap) !in rows
    ensures Known(done + [n], idMap)
    ensures Added(before, rows[KeyFor(n, idMap) := EarlyRow(n, home, idMap)], done + [n], home, idMap)
  {
    KeysOneMore(done, n, idMap);
  }

  lemma KeysOneMore(done: seq<Node>, n: Node, idMap: IdMap)
    requires Known(done, idMap) && Placed(n, idMap)
    ensures Known(done + [n], idMap) && KeysOf(done + [n], idMap) == KeysOf(done, idMap) + {KeyFor(n, idMap)}
  {
    assert forall m :: m in done + [n] <==> m in done || m == n;
  }

  /** Writes pending rows, one after another, unless an index refuses one of them. */
  method Flush(nodes: seq<Node>, home: New, idMap: IdMap, rows: Rows, ghost before: Rows, ghost done: seq<Node>)
    returns (r: Result<Rows, Error>)
    requires Known(done, idMap) && Known(nodes, idMap) && FreshMap(before, home, idMap)
    requires Added(before, rows, done, home, idMap)
    ensures Known(done + nodes, idMap)
    ensures r.Ok? ==> Added(before, r.value, done + nodes, home, idMap)
    ensures r.Err? ==> r.error == Integrity && !Apart(done + nodes)
  {
    var session := rows;
    assert done + nodes[..0] == done;
    for i := 0 to |nodes|
      invariant Known(done + nodes[..i], idMap) && Added(before, session, done + nodes[..i], home, idMap)
    {
      var n := nodes[i];
      ghost var so := done + nodes[..i];
      assert done + nodes[..i + 1] == so + [n];
      assert done + nodes == (done + nodes[..i + 1]) + nodes[i + 1..];
      RefusedWhen(before, session, so, n, home, idMap);
      ApartOneMore(so, n);
      if Refused(session, KeyFor(n, idMap), EarlyRow(n, home, idMap)) {
        if Apart(done + nodes) {
          ApartPrefix(done + nodes[..i + 1], nodes[i + 1..]);
        }
        return Err(Integrity);
      }
      AddedOneMore(before, session, so, n, home, idMap);
      session := session[KeyFor(n, idMap) := EarlyRow(n, home, idMap)];
    }
    assert nodes[..|nodes|] == nodes;
    r := Ok(session);
  }

  // ---- fresh ids ----------------------------------------------------------------------

  function RawIds(raws: seq<Raw>): set<Old> {
    set r | r in raws :: r.id
  }

  function LaneIds(lanes: seq<LaneTree>): set<Old> {
    if lanes == [] then {}
    else LaneIds(lanes[..|lanes| - 1]) + {lanes[|lanes| - 1].lane.id} + RawIds(lanes[|lanes| - 1].groups)
  }

  function PiIds(pi: PiTree): set<Old> {
    {pi.pi.id} + LaneIds(pi.lanes) + RawIds(pi.sprints) + RawIds(pi.events)
  }

  function TreeIds(pis: seq<PiTree>): set<Old> {
    if pis == [] then {} else TreeIds(pis[..|pis| - 1]) + PiIds(pis[|pis| - 1])
  }

  function FlatIds(p: Payload): set<Old> {
    RawIds(p.states) + RawIds(p.features) + RawIds(p.stories)
  }

  function ObjectIds(p: Payload): set<Old> {
    FlatIds(p) + TreeIds(p.pis)
  }

  function AllIds(p: Payload): set<Old> {
    {p.project} + ObjectIds(p)
  }

  ghost predicate Injective(supply: nat -> New) {
    forall i, j :: supply(i) == supply(j) ==> i == j
  }

  /** Random ids: no two alike, none in use. */
  ghost predicate Random(supply: nat -> New, before: Rows) {
    && Injective(supply)
    && (forall i, k :: k in before ==> k.id != supply(i))
    && (forall i, k, f :: k in before && f in before[k].links ==> before[k].links[f] != supply(i))
  }

  /** Built from the first so many of them. */
  ghost predicate Numbered(idMap: IdMap, supply: nat -> New, n: nat) {
    && (forall x :: x in idMap ==> exists i: nat :: i < n && idMap[x] == supply(i))
    && (forall x, y :: x in idMap && y in idMap && idMap[x] == idMap[y] ==> x == y)
  }

  lemma NumberedOneMore(idMap: IdMap, supply: nat -> New, n: nat, x: Old)
    requires Numbered(idMap, supply, n) && Injective(supply)
    ensures Numbered(idMap[x := supply(n)], supply, n + 1)
  {
    var after := idMap[x := supply(n)];
    forall y | y in after ensures exists i: nat :: i < n + 1 && after[y] == supply(i) {
      if y == x {
        assert after[y] == supply(n);
      } else {
        var i: nat :| i < n && idMap[y] == supply(i);
      }
    }
    forall y, z | y in after && z in after && after[y] == after[z] ensures y == z {
      if y != x {
        var i: nat :| i < n && idMap[y] == supply(i);
      }
      if z != x {
        var j: nat :| j < n && idMap[z] == supply(j);
      }
    }
  }

  /** These have new ids, none of them the project's; the others keep theirs. */
  ghost predicate Given(idMap: IdMap, after: IdMap, ids: set<Old>, supply: nat -> New) {
    && after.Keys == idMap.Keys + ids
    && (forall x :: x in ids ==> after[x] != supply(0))
    && (forall x :: x in idMap && x !in ids ==> after[x] == idMap[x])
  }

  lemma GivenOneMore(idMap: IdMap, after: IdMap, ids: set<Old>, x: Old, supply: nat -> New, n: nat)
    requires Given(idMap, after, ids, supply) && Injective(supply) && n > 0
    ensures Given(idMap, after[x := supply(n)], ids + {x}, supply)
  {}

  lemma GivenThen(idMap: IdMap, middle: IdMap, after: IdMap, a: set<Old>, b: set<Old>, supply: nat -> New)
    requires Given(idMap, middle, a, supply) && Given(middle, after, b, supply)
    ensures Given(idMap, after, a + b, supply)
  {}

  method GiveId(idMap: IdMap, x: Old, supply: nat -> New, used: nat) returns (after: IdMap, next: nat)
    requires Numbered(idMap, supply, used) && Injective(supply) && used > 0
    ensures Numbered(after, supply, next) && next > 0 && Given(idMap, after, {x}, supply)
  {
    NumberedOneMore(idMap, supply, used, x);
    GivenOneMore(idMap, idMap, {}, x, supply, used);
    assert {} + {x} == {x};
    after, next := idMap[x := supply(used)], used + 1;
  }

  method GiveIds(raws: seq<Raw>, idMap: IdMap, supply: nat -> New, used: nat) returns (after: IdMap, next: nat)
    requires Numbered(idMap, supply, used) && Injective(supply) && used > 0
    ensures Numbered(after, supply, next) && next > 0 && Given(idMap, after, RawIds(raws), supply)
  {
    after, next := idMap, used;
    for i := 0 to |raws|
      invariant Numbered(after, supply, next) && next > 0 && Given(idMap, after, RawIds(raws[..i]), supply)
    {
      ghost var middle := after;
      after, next := GiveId(after, raws[i].id, supply, next);
      GivenThen(idMap, middle, after, RawIds(raws[..i]), {raws[i].id}, supply);
      assert raws[..i + 1] == raws[..i] + [raws[i]];
      assert RawIds(raws[..i + 1]) == RawIds(raws[..i]) + {raws[i].id};
    }
    assert raws[..|raws|] == raws;
  }

  method GiveLaneIds(lanes: seq<LaneTree>, idMap: IdMap, supply: nat -> New, used: nat)
    returns (after: IdMap, next: nat)
    requires Numbered(idMap, supply, used) && Injective(supply) && used > 0
    ensures Numbered(after, supply, next) && next > 0 && Given(idMap, after, LaneIds(lanes), supply)
  {
    after, next := idMap, used;
    assert lanes[..0] == [];
    for i := 0 to |lanes|
      invariant Numbered(after, supply, next) && next > 0 && Given(idMap, after, LaneIds(lanes[..i]), supply)
    {
      assert lanes[..i + 1][..i] == lanes[..i];
      ghost var so, middle := LaneIds(lanes[..i]), after;
      after, next := GiveId(after, lanes[i].lane.id, supply, next);
      GivenThen(idMap, middle, after, so, {lanes[i].lane.id}, supply);
      middle := after;
      after, next := GiveIds(lanes[i].groups, after, supply, next);
      GivenThen(idMap, middle, after, so + {lanes[i].lane.id}, RawIds(lanes[i].groups), supply);
    }
    assert lanes[..|lanes|] == lanes;
  }

  method GivePiIds(pi: PiTree, idMap: IdMap, supply: nat -> New, used: nat) returns (after: IdMap, next: nat)
    requires Numbered(idMap, supply, used) && Injective(supply) && used > 0
    ensures Numbered(after, supply, next) && next > 0 && Given(idMap, after, PiIds(pi), supply)
  {
    after, next := GiveId(idMap, pi.pi.id, supply, used);
    ghost var middle := after;
    after, next := GiveLaneIds(pi.lanes, after, supply, next);
    GivenThen(idMap, middle, after, {pi.pi.id}, LaneIds(pi.lanes), supply);
    middle := after;
    after, next := GiveIds(pi.sprints, after, supply, next);
    GivenThen(idMap, middle, after, {pi.pi.id} + LaneIds(pi.lanes), RawIds(pi.sprints), supply);
    middle := after;
    after, next := GiveIds(pi.events, after, supply, next);
    GivenThen(idMap, middle, after, {pi.pi.id} + LaneIds(pi.lanes) + RawIds(pi.sprints), RawIds(pi.events), supply);
  }

  method GiveTreeIds(pis: seq<PiTree>, idMap: IdMap, supply: nat -> New, used: nat) returns (after: IdMap, next: nat)
    requires Numbered(idMap, supply, used) && Injective(supply) && used > 0
    ensures Numbered(after, supply, next) && next > 0 && Given(idMap, after, TreeIds(pis), supply)
  {
    after, next := idMap, used;
    assert pis[..0] == [];
    for i := 0 to |pis|
      invariant Numbered(after, supply, next) && next > 0 && Given(idMap, after, TreeIds(pis[..i]), supply)
    {
      assert pis[..i + 1][..i] == pis[..i];
      ghost var middle := after;
      after, next := GivePiIds(pis[i], after, supply, next);
      GivenThen(idMap, middle, after, TreeIds(pis[..i]), PiIds(pis[i]), supply);
    }
    assert pis[..|pis|] == pis;
  }

  method GiveFlatIds(p: Payload, idMap: IdMap, supply: nat -> New, used: nat) returns (after: IdMap, next: nat)
    requires Numbered(idMap, supply, used) && Injective(supply) && used > 0
    ensures Numbered(after, supply, next) && next > 0 && Given(idMap, after, FlatIds(p), supply)
  {
    after, next := GiveIds(p.states, idMap, supply, used);
    ghost var middle := after;
    after, next := GiveIds(p.features, after, supply, next);
    GivenThen(idMap, middle, after, RawIds(p.states), RawIds(p.features), supply);
    middle := after;
    after, next := GiveIds(p.stories, after, supply, next);
    GivenThen(idMap, middle, after, RawIds(p.states) + RawIds(p.features), RawIds(p.stories), supply);
  }

  /** The new project's id is its alone, and stands for the old one unless an object of the payload has that too. */
  ghost predicate HomeIs(p: Payload, home: New, idMap: IdMap)
    requires idMap.Keys == AllIds(p)
  {
    && (forall x :: x in ObjectIds(p) ==> idMap[x] != home)
    && (p.project !in ObjectIds(p) ==> idMap[p.project] == home)
  }

  /** One fresh id for each id of the payload, the project's own first. */
  method BuildIdMap(p: Payload, home: New, supply: nat -> New, ghost before: Rows) returns (idMap: IdMap)
    requires Random(supply, before) && home == supply(0)
    ensures idMap.Keys == AllIds(p) && FreshMap(before, home, idMap) && HomeIs(p, home, idMap)
  {
    ghost var first := map[p.project := home];
    NumberedOneMore(map[], supply, 0, p.project);
    var next;
    idMap, next := GiveFlatIds(p, map[p.project := home], supply, 1);
    ghost var middle := idMap;
    idMap, next := GiveTreeIds(p.pis, idMap, supply, next);
    GivenThen(first, middle, idMap, FlatIds(p), TreeIds(p.pis), supply);
  }

  /** The object's own id and its parent's are among these. */
  predicate Within(n: Node, ids: set<Old>) {
    && n.id in ids && ToProject !in n.links
    && (Parent(n.kind) != ToProject ==> Parent(n.kind) in n.links && n.links[Parent(n.kind)] in ids)
  }

  lemma NodesOfIds(kind: Kind, raws: seq<Raw>, parent: Option<Old>, ids: set<Old>)
    requires RawIds(raws) <= ids && (parent.Some? <==> Parent(kind) != ToProject)
    requires parent.Some? ==> parent.value in ids
    ensures forall n :: n in NodesOf(kind, raws, parent) ==> Within(n, ids)
  {
    forall n | n in NodesOf(kind, raws, parent) ensures Within(n, ids) {
      var i :| 0 <= i < |raws| && NodesOf(kind, raws, parent)[i] == n;
      assert raws[i].id in RawIds(raws) by {
        assert raws[i] in raws;
      }
    }
  }

  lemma {:induction false} LaneNodesIds(lanes: seq<LaneTree>, pi: Old, ids: set<Old>)
    requires LaneIds(lanes) <= ids && pi in ids
    ensures forall n :: n in LaneNodes(lanes, pi) || n in GroupsOfLanes(lanes) ==> Within(n, ids)
  {
    if lanes != [] {
      var before, last := lanes[..|lanes| - 1], lanes[|lanes| - 1];
      LaneNodesIds(before, pi, ids);
      NodesOfIds(Group, last.groups, Some(last.lane.id), ids);
      assert LaneNodes(lanes, pi) == LaneNodes(before, pi) + [NodeOf(Lane, last.lane, Some(pi))];
    }
  }

  lemma StructureIds(pi: PiTree, ids: set<Old>)
    requires PiIds(pi) <= ids
    ensures forall n :: n in Structure(pi) || n in GroupsOfLanes(pi.lanes) ==> Within(n, ids)
  {
    LaneNodesIds(pi.lanes, pi.pi.id, ids);
    NodesOfIds(Sprint, pi.sprints, Some(pi.pi.id), ids);
    NodesOfIds(Event, pi.events, Some(pi.pi.id), ids);
  }

  lemma {:induction false} TreeNodesIds(pis: seq<PiTree>, ids: set<Old>)
    requires TreeIds(pis) <= ids
    ensures forall n :: n in Structures(pis) || n in Groups(pis) ==> Within(n, ids)
  {
    if pis != [] {
      TreeNodesIds(pis[..|pis| - 1], ids);
      StructureIds(pis[|pis| - 1], ids);
    }
  }

  /** Every object the importer adds is one of the payload's, under a parent that is too, or under the project. */
  lemma NodesAreWithin(p: Payload)
    ensures forall n :: n in Nodes(p) ==> Within(n, ObjectIds(p))
  {
    TreeNodesIds(p.pis, ObjectIds(p));
    NodesOfIds(State, p.states, None, ObjectIds(p));
    NodesOfIds(Feature, p.features, None, ObjectIds(p));
    NodesOfIds(Story, p.stories, None, ObjectIds(p));
  }

  /** The ids of these objects. */
  function IdsOf(nodes: seq<Node>): set<Old> {
    set n | n in nodes :: n.id
  }

  lemma IdsTogether(a: seq<Node>, b: seq<Node>)
    ensures IdsOf(a + b) == IdsOf(a) + IdsOf(b)
  {}

  lemma RawIdsAre(kind: Kind, raws: seq<Raw>, parent: Option<Old>)
    requires parent.Some? ==> Parent(kind) != ToProject
    ensures IdsOf(NodesOf(kind, raws, parent)) == RawIds(raws)
  {
    var nodes := NodesOf(kind, raws, parent);
    forall r | r in raws ensures r.id in IdsOf(nodes) {
      var i :| 0 <= i < |raws| && raws[i] == r;
      assert nodes[i] in nodes;
    }
  }

  lemma OneLaneIds(lanes: seq<LaneTree>, tree: LaneTree, pi: Old)
    ensures IdsOf(LaneNodes(lanes + [tree], pi)) == IdsOf(LaneNodes(lanes, pi)) + {tree.lane.id}
    ensures IdsOf(GroupsOfLanes(lanes + [tree])) == IdsOf(GroupsOfLanes(lanes)) + RawIds(tree.groups)
  {
    var node := NodeOf(Lane, tree.lane, Some(pi));
    assert (lanes + [tree])[..|lanes|] == lanes;
    assert LaneNodes(lanes + [tree], pi) == LaneNodes(lanes, pi) + [node];
    IdsTogether(LaneNodes(lanes, pi), [node]);
    assert IdsOf([node]) == {tree.lane.id};
    RawIdsAre(Group, tree.groups, Some(tree.lane.id));
    IdsTogether(GroupsOfLanes(lanes), GroupsOfLane(tree));
  }

  lemma LastLaneIds(lanes: seq<LaneTree>, pi: Old)
    requires lanes != []
    ensures
      var first, last := lanes[..|lanes| - 1], lanes[|lanes| - 1];
      IdsOf(LaneNodes(lanes, pi)) + IdsOf(GroupsOfLanes(lanes)) ==
        IdsOf(LaneNodes(first, pi)) + IdsOf(GroupsOfLanes(first)) + {last.lane.id} + RawIds(last.groups)
  {
    var first, last := lanes[..|lanes| - 1], lanes[|lanes| - 1];
    assert lanes == first + [last];
    OneLaneIds(first, last, pi);
  }

  lemma {:induction false} LaneIdsAre(lanes: seq<LaneTree>, pi: Old)
    ensures IdsOf(LaneNodes(lanes, pi)) + IdsOf(GroupsOfLanes(lanes)) == LaneIds(lanes)
  {
    if lanes != [] {
      LastLaneIds(lanes, pi);
      LaneIdsAre(lanes[..|lanes| - 1], pi);
    }
  }

  lemma PiIdsAre(pi: PiTree)
    ensures IdsOf(Structure(pi)) + IdsOf(GroupsOfLanes(pi.lanes)) == PiIds(pi)
  {
    LaneIdsAre(pi.lanes, pi.pi.id);
    RawIdsAre(Sprint, pi.sprints, Some(pi.pi.id));
    RawIdsAre(Event, pi.events, Some(pi.pi.id));
    var tree := [NodeOf(Pi, pi.pi, None)] + LaneNodes(pi.lanes, pi.pi.id);
    IdsTogether([NodeOf(Pi, pi.pi, None)], LaneNodes(pi.lanes, pi.pi.id));
    IdsTogether(tree, NodesOf(Sprint, pi.sprints, Some(pi.pi.id)));
    IdsTogether(
      tree + NodesOf(Sprint, pi.sprints, Some(pi.pi.id)), NodesOf(Event, pi.events, Some(pi.pi.id)));
  }

  lemma {:induction false} TreeIdsAre(pis: seq<PiTree>)
    ensures IdsOf(Structures(pis)) + IdsOf(Groups(pis)) == TreeIds(pis)
  {
    if pis != [] {
      var first, last := pis[..|pis| - 1], pis[|pis| - 1];
      TreeIdsAre(first);
      PiIdsAre(last);
      IdsTogether(Structures(first), Structure(last));
      IdsTogether(Groups(first), GroupsOfLanes(last.lanes));
    }
  }

  /** The payload knows the ids of its objects and, beside the project's, no others. */
  lemma ObjectIdsAre(p: Payload)
    ensures IdsOf(Nodes(p)) == ObjectIds(p)
  {
    var tree, states := Structures(p.pis), States(p);
    TreeIdsAre(p.pis);
    RawIdsAre(State, p.states, None);
    RawIdsAre(Feature, p.features, None);
    RawIdsAre(Story, p.stories, None);
    IdsTogether(tree, states);
    IdsTogether(tree + states, Features(p));
    IdsTogether(tree + states + Features(p), Groups(p.pis));
    IdsTogether(tree + states + Features(p) + Groups(p.pis), Stories(p));
  }

  // ---- reading the payload ------------------------------------------------------------

  method Read(kind: Kind, raws: seq<Raw>, parent: Option<Old>) returns (nodes: seq<Node>)
    requires parent.Some? ==> Parent(kind) != ToProject
    ensures nodes == NodesOf(kind, raws, parent)
  {
    nodes := [];
    for i := 0 to |raws|
      invariant nodes == NodesOf(kind, raws[..i], parent)
    {
      nodes := nodes + [NodeOf(kind, raws[i], parent)];
      assert raws[..i + 1] == raws[..i] + [raws[i]];
    }
    assert raws[..|raws|] == raws;
  }

  method ReadLanes(lanes: seq<LaneTree>, pi: Old) returns (nodes: seq<Node>)
    ensures nodes == LaneNodes(lanes, pi)
  {
    nodes := [];
    for i := 0 to |lanes|
      invariant nodes == LaneNodes(lanes[..i], pi)
    {
      nodes := nodes + [NodeOf(Lane, lanes[i].lane, Some(pi))];
    }
    assert lanes[..|lanes|] == lanes;
  }

  /** Each PI with its swimlanes, its sprints and its events. */
  method ReadStructures(pis: seq<PiTree>) returns (nodes: seq<Node>)
    ensures nodes == Structures(pis)
  {
    nodes := [];
    assert pis[..0] == [];
    for i := 0 to |pis|
      invariant nodes == Structures(pis[..i])
    {
      assert pis[..i + 1][..i] == pis[..i];
      var pi := pis[i].pi;
      var lanes := ReadLanes(pis[i].lanes, pi.id);
      var sprints := Read(Sprint, pis[i].sprints, Some(pi.id));
      var events := Read(Event, pis[i].events, Some(pi.id));
      nodes := nodes + ([NodeOf(Pi, pi, None)] + lanes + sprints + events);
    }
    assert pis[..|pis|] == pis;
  }

  /** Objects that must name a feature, up to the first that does not. */
  method ReadRequired(kind: Kind, raws: seq<Raw>, parent: Option<Old>, known: set<Old>)
    returns (r: Result<seq<Node>, Error>)
    requires parent.Some? ==> Parent(kind) != ToProject
    ensures r.Ok? ==> r.value == NodesOf(kind, raws, parent) && !AnyDangling(r.value, known)
    ensures r.Err? ==> r.error == Dangling && AnyDangling(NodesOf(kind, raws, parent), known)
  {
    var nodes: seq<Node> := [];
    for i := 0 to |raws|
      invariant nodes == NodesOf(kind, raws[..i], parent) && !AnyDangling(nodes, known)
    {
      var n := NodeOf(kind, raws[i], parent);
      if IsDangling(n, known) {
        assert NodesOf(kind, raws, parent)[i] == n;
        return Err(Dangling);
      }
      assert raws[..i + 1] == raws[..i] + [raws[i]];
      assert NodesOf(kind, raws[..i + 1], parent) == nodes + [n];
      nodes := nodes + [n];
    }
    assert raws[..|raws|] == raws;
    r := Ok(nodes);
  }

  lemma {:induction false} GroupsOfLaneIn(lanes: seq<LaneTree>, i: nat)
    requires i < |lanes|
    ensures forall n :: n in GroupsOfLane(lanes[i]) ==> n in GroupsOfLanes(lanes)
    decreases |lanes|
  {
    if i < |lanes| - 1 {
      GroupsOfLaneIn(lanes[..|lanes| - 1], i);
    }
  }

  lemma {:induction false} GroupsOfLanesIn(pis: seq<PiTree>, i: nat)
    requires i < |pis|
    ensures forall n :: n in GroupsOfLanes(pis[i].lanes) ==> n in Groups(pis)
    decreases |pis|
  {
    if i < |pis| - 1 {
      GroupsOfLanesIn(pis[..|pis| - 1], i);
    }
  }

  method ReadLaneGroups(lanes: seq<LaneTree>, known: set<Old>) returns (r: Result<seq<Node>, Error>)
    ensures r.Ok? ==> r.value == GroupsOfLanes(lanes) && !AnyDangling(r.value, known)
    ensures r.Err? ==> r.error == Dangling && AnyDangling(GroupsOfLanes(lanes), known)
  {
    var nodes: seq<Node> := [];
    assert lanes[..0] == [];
    for i := 0 to |lanes|
      invariant nodes == GroupsOfLanes(lanes[..i]) && !AnyDangling(nodes, known)
    {
      assert lanes[..i + 1][..i] == lanes[..i];
      r := ReadRequired(Group, lanes[i].groups, Some(lanes[i].lane.id), known);
      if r.Err? {
        GroupsOfLaneIn(lanes, i);
        return;
      }
      nodes := nodes + r.value;
    }
    assert lanes[..|lanes|] == lanes;
    r := Ok(nodes);
  }

  method ReadGroups(pis: seq<PiTree>, known: set<Old>) returns (r: Result<seq<Node>, Error>)
    ensures r.Ok? ==> r.value == Groups(pis) && !AnyDangling(r.value, known)
    ensures r.Err? ==> r.error == Dangling && AnyDangling(Groups(pis), known)
  {
    var nodes: seq<Node> := [];
    assert pis[..0] == [];
    for i := 0 to |pis|
      invariant nodes == Groups(pis[..i]) && !AnyDangling(nodes, known)
    {
      assert pis[..i + 1][..i] == pis[..i];
      r := ReadLaneGroups(pis[i].lanes, known);
      if r.Err? {
        GroupsOfLanesIn(pis, i);
        return;
      }
      nodes := nodes + r.value;
    }
    assert pis[..|pis|] == pis;
    r := Ok(nodes);
  }

  /** No two objects of a payload without conflicts share a row. */
  lemma OneNodePerKey(before: Rows, nodes: seq<Node>, home: New, idMap: IdMap, a: Node, b: Node)
    requires FreshMap(before, home, idMap) && Known(nodes, idMap) && Apart(nodes)
    requires a in nodes && b in nodes && KeyFor(a, idMap) == KeyFor(b, idMap)
    ensures a == b
  {
    var i :| 0 <= i < |nodes| && nodes[i] == a;
    var j :| 0 <= j < |nodes| && nodes[j] == b;
  }

  // ---- the second pass ----------------------------------------------------------------

  /** All rows are there; those of these nodes have their late links too. */
  ghost predicate Linked(before: Rows, rows: Rows, nodes: seq<Node>, done: set<Node>, home: New, idMap: IdMap)
    requires Known(nodes, idMap)
  {
    && rows.Keys == before.Keys + KeysOf(nodes, idMap)
    && (forall k :: k in before ==> rows[k] == before[k])
    && (forall n :: n in nodes ==>
          KeyFor(n, idMap) in rows
          && rows[KeyFor(n, idMap)] == if n in done then FinalRow(n, home, idMap) else EarlyRow(n, home, idMap))
  }

  function WithLink(row: Row, field: Field, target: Option<New>): Row {
    if target.Some? then row.(links := row.links[field := target.value]) else row
  }

  function Target(n: Node, field: Field, idMap: IdMap): Option<New> {
    if field in n.links && n.links[field] in idMap then Some(idMap[n.links[field]]) else None
  }

  predicate OnlyLate(n: Node, field: Field) {
    (ToOrigin in n.links ==> field == ToOrigin) && (ToStory in n.links ==> field == ToStory)
  }

  /** The kind's one late link is what its final row has over its early one. */
  lemma LateLink(n: Node, field: Field, home: New, idMap: IdMap)
    requires field in LATE && OnlyLate(n, field)
    ensures FinalRow(n, home, idMap) == WithLink(EarlyRow(n, home, idMap), field, Target(n, field, idMap))
  {
    RemappedLate(n, field, idMap);
  }

  lemma RemappedLate(n: Node, field: Field, idMap: IdMap)
    requires field in LATE && OnlyLate(n, field)
    ensures
      var early, final := Remapped(n.links, idMap, ALL - LATE), Remapped(n.links, idMap, ALL);
      final == match Target(n, field, idMap) case Some(x) => early[field := x] case None => early
  {
    var early, final := Remapped(n.links, idMap, ALL - LATE), Remapped(n.links, idMap, ALL);
    forall f | f in final && f != field ensures f in early && early[f] == final[f] {}
    forall f | f in early ensures f in final && f != field {}
  }

  lemma LinkedOneMore(
      before: Rows, rows: Rows, nodes: seq<Node>, done: set<Node>, n: Node, field: Field, home: New, idMap: IdMap)
    requires Known(nodes, idMap) && FreshMap(before, home, idMap) && Apart(nodes)
    requires Linked(before, rows, nodes, done, home, idMap)
    requires n in nodes && n !in done && field in LATE && OnlyLate(n, field)
    ensures
      var k := KeyFor(n, idMap);
      Linked(before, rows[k := WithLink(rows[k], field, Target(n, field, idMap))], nodes, done + {n}, home, idMap)
  {
    LateLink(n, field, home, idMap);
    forall m | m in nodes && KeyFor(m, idMap) == KeyFor(n, idMap) ensures m == n {
      OneNodePerKey(before, nodes, home, idMap, m, n);
    }
  }

  /** A node without late links is linked as it is. */
  lemma LinkedAnyway(
      before: Rows, rows: Rows, nodes: seq<Node>, done: set<Node>, more: set<Node>, home: New, idMap: IdMap)
    requires Known(nodes, idMap) && Linked(before, rows, nodes, done, home, idMap)
    requires forall n, f :: n in more && f in n.links ==> f !in LATE
    ensures Linked(before, rows, nodes, done + more, home, idMap)
  {
    forall n | n in nodes && n in more ensures FinalRow(n, home, idMap) == EarlyRow(n, home, idMap) {
      assert Remapped(n.links, idMap, ALL) == Remapped(n.links, idMap, ALL - LATE);
    }
  }

  method LinkEach(
      some: seq<Node>, field: Field, home: New, idMap: IdMap, rows: Rows, ghost before: Rows, ghost nodes: seq<Node>,
      ghost done: set<Node>)
    returns (after: Rows)
    requires Known(nodes, idMap) && FreshMap(before, home, idMap) && Apart(nodes)
    requires Linked(before, rows, nodes, done, home, idMap)
    requires Apart(some) && forall n :: n in some ==> n in nodes && n !in done && OnlyLate(n, field)
    requires field in LATE
    ensures Linked(before, after, nodes, done + SetOf(some), home, idMap)
  {
    after := rows;
    assert done + SetOf(some[..0]) == done;
    for i := 0 to |some|
      invariant Linked(before, after, nodes, done + SetOf(some[..i]), home, idMap)
    {
      var n := some[i];
      SetOfNext(some, i, done);
      LinkedOneMore(before, after, nodes, done + SetOf(some[..i]), n, field, home, idMap);
      if field in n.links {
        var k := KeyFor(n, idMap);
        after := after[k := WithLink(after[k], field, Target(n, field, idMap))];
      } else {
        assert after[KeyFor(n, idMap) := after[KeyFor(n, idMap)]] == after;
      }
    }
    assert some[..|some|] == some;
  }

  lemma SetOfNext(some: seq<Node>, i: nat, done: set<Node>)
    requires Apart(some) && i < |some| && some[i] !in done
    ensures some[i] !in done + SetOf(some[..i])
    ensures done + SetOf(some[..i + 1]) == done + SetOf(some[..i]) + {some[i]}
  {
    forall m | m in some[..i] ensures m != some[i] {
      var j :| 0 <= j < i && some[j] == m;
    }
    assert some[..i + 1] == some[..i] + [some[i]];
  }

  ghost function SetOf(nodes: seq<Node>): set<Node> {
    set n | n in nodes
  }

  // ---- the import ---------------------------------------------------------------------

  /** Exactly one final row for each object of the payload, beside everything that was stored. */
  ghost predicate Imported(before: Rows, after: Rows, p: Payload, home: New, idMap: IdMap) {
    && idMap.Keys == AllIds(p) && FreshMap(before, home, idMap) && HomeIs(p, home, idMap) && Known(Nodes(p), idMap)
    && Apart(Nodes(p)) && StoriesApart(Nodes(p), idMap.Keys) && !AnyDangling(Nodes(p), idMap.Keys)
    && after.Keys == before.Keys + KeysOf(Nodes(p), idMap)
    && (forall k :: k in before ==> after[k] == before[k])
    && (forall n :: n in Nodes(p) ==> KeyFor(n, idMap) in after && after[KeyFor(n, idMap)] == FinalRow(n, home, idMap))
  }

  /** Only a feature has an origin, only a group a story of its own. */
  predicate LateFits(n: Node) {
    (ToOrigin in n.links ==> n.kind == Feature) && (ToStory in n.links ==> n.kind == Group)
  }

  lemma {:induction false} StructuresKinds(pis: seq<PiTree>)
    ensures forall n :: n in Structures(pis) ==>
      n.kind != Feature && n.kind != Group && n.kind != Story && LateFits(n)
    ensures forall n :: n in Groups(pis) ==> n.kind == Group && LateFits(n)
  {
    if pis != [] {
      StructuresKinds(pis[..|pis| - 1]);
      var last := pis[|pis| - 1];
      LanesKinds(last.lanes);
      forall n | n in Structure(last)
        ensures n.kind != Feature && n.kind != Group && n.kind != Story && LateFits(n)
      {}
    }
  }

  lemma {:induction false} LanesKinds(lanes: seq<LaneTree>)
    ensures forall n :: n in GroupsOfLanes(lanes) ==> n.kind == Group && LateFits(n)
  {
    if lanes != [] {
      LanesKinds(lanes[..|lanes| - 1]);
    }
  }

  lemma NodesOfKind(kind: Kind, raws: seq<Raw>, parent: Option<Old>)
    requires parent.Some? ==> Parent(kind) != ToProject
    ensures forall n :: n in NodesOf(kind, raws, parent) ==> n.kind == kind && LateFits(n)
  {}

  /** The first flushes: what stands above the groups. */
  method AddEarly(p: Payload, home: New, idMap: IdMap, before: Rows) returns (r: Result<Rows, Error>)
    requires FreshMap(before, home, idMap) && Known(Nodes(p), idMap)
    ensures
      var early := Structures(p.pis) + States(p) + Features(p);
      && Known(early, idMap)
      && (r.Ok? ==> Added(before, r.value, early, home, idMap))
      && (r.Err? ==> r.error == Integrity && !Apart(early))
  {
    ghost var one, two := Structures(p.pis), Structures(p.pis) + States(p);
    var structures := ReadStructures(p.pis);
    assert [] + structures == structures;
    r := Flush(structures, home, idMap, before, before, []);
    if r.Err? {
      ApartParts(one, States(p), Features(p));
      return;
    }
    var states := Read(State, p.states, None);
    r := Flush(states, home, idMap, r.value, before, one);
    if r.Err? {
      ApartParts(one, States(p), Features(p));
      return;
    }
    var features := Read(Feature, p.features, None);
    r := Flush(features, home, idMap, r.value, before, two);
  }

  lemma ApartParts(a: seq<Node>, b: seq<Node>, c: seq<Node>)
    ensures !Apart(a) ==> !Apart(a + b + c)
    ensures !Apart(a + b) ==> !Apart(a + b + c)
  {
    if Apart(a + b + c) {
      ApartPrefix(a + b, c);
      ApartPrefix(a, b);
    }
  }

  /** The first pass. */
  method AddAll(p: Payload, home: New, idMap: IdMap, before: Rows) returns (r: Result<Rows, Error>)
    requires idMap.Keys == AllIds(p) && FreshMap(before, home, idMap) && Known(Nodes(p), idMap)
    ensures r.Ok? ==> Added(before, r.value, Nodes(p), home, idMap) && !AnyDangling(Nodes(p), idMap.Keys)
    ensures r.Err? ==> Verdict(p) == Some(r.error)
  {
    ghost var early := Structures(p.pis) + States(p) + Features(p);
    r := AddEarly(p, home, idMap, before);
    if r.Err? {
      return;
    }
    var groups := ReadGroups(p.pis, idMap.Keys);
    if groups.Err? {
      return Err(groups.error);
    }
    r := Flush(groups.value, home, idMap, r.value, before, early);
    if r.Err? {
      return;
    }
    var stories := ReadRequired(Story, p.stories, None, idMap.Keys);
    if stories.Err? {
      return Err(stories.error);
    }
    r := Flush(stories.value, home, idMap, r.value, before, early + Groups(p.pis));
    NothingDangles(p, idMap.Keys);
  }

  lemma NothingDangles(p: Payload, known: set<Old>)
    requires !AnyDangling(Groups(p.pis), known) && !AnyDangling(Stories(p), known)
    ensures !AnyDangling(Nodes(p), known)
  {
    StructuresKinds(p.pis);
    NodesOfKind(State, p.states, None);
    NodesOfKind(Feature, p.features, None);
  }

  /** Parts of a sequence without conflicts have none either. */
  lemma PartApart(a: seq<Node>, b: seq<Node>, c: seq<Node>)
    requires Apart(a + b + c)
    ensures Apart(b)
  {
    forall i, j | 0 <= i < j < |b| ensures !Conflict(b[i], b[j]) {
      assert (a + b + c)[|a| + i] == b[i] && (a + b + c)[|a| + j] == b[j];
    }
  }

  /** Links that may point forward: a feature's origin, then a group's story. */
  method LinkParts(
      ghost head: seq<Node>, features: seq<Node>, groups: seq<Node>, ghost tail: seq<Node>, ghost nodes: seq<Node>,
      home: New, idMap: IdMap, rows: Rows, ghost before: Rows)
    returns (after: Rows)
    requires nodes == head + features + groups + tail
    requires FreshMap(before, home, idMap) && Known(nodes, idMap) && Added(before, rows, nodes, home, idMap)
    requires PartsFit(head, features, groups, tail)
    ensures Linked(before, after, nodes, SetOf(nodes), home, idMap)
  {
    ghost var rest := SetOf(head) + SetOf(tail);
    PartsApart(head, features, groups, tail);
    PartsSeparate(head, features, groups, tail);
    AddedIsLinked(before, rows, nodes, rest, home, idMap);
    after := LinkEach(features, ToOrigin, home, idMap, rows, before, nodes, rest);
    after := LinkEach(groups, ToStory, home, idMap, after, before, nodes, rest + SetOf(features));
    SetOfParts(head, features, groups, tail);
  }

  ghost predicate PartsFit(head: seq<Node>, features: seq<Node>, groups: seq<Node>, tail: seq<Node>) {
    && (forall n :: n in head || n in tail ==> n.kind != Feature && n.kind != Group && LateFits(n))
    && (forall n :: n in features ==> n.kind == Feature && LateFits(n))
    && (forall n :: n in groups ==> n.kind == Group && LateFits(n))
  }

  lemma PartsApart(head: seq<Node>, features: seq<Node>, groups: seq<Node>, tail: seq<Node>)
    requires Apart(head + features + groups + tail)
    ensures Apart(features) && Apart(groups)
  {
    assert head + features + groups + tail == head + features + (groups + tail);
    PartApart(head, features, groups + tail);
    PartApart(head + features, groups, tail);
  }

  lemma PartsSeparate(head: seq<Node>, features: seq<Node>, groups: seq<Node>, tail: seq<Node>)
    requires PartsFit(head, features, groups, tail)
    ensures forall n :: n in SetOf(head) + SetOf(tail) ==> ToOrigin !in n.links && ToStory !in n.links
    ensures forall n :: n in features ==>
      n in head + features + groups + tail && n !in SetOf(head) + SetOf(tail) && OnlyLate(n, ToOrigin)
    ensures forall n :: n in groups ==>
      n in head + features + groups + tail && n !in SetOf(head) + SetOf(tail) + SetOf(features) && OnlyLate(n, ToStory)
  {}

  lemma SetOfParts(head: seq<Node>, features: seq<Node>, groups: seq<Node>, tail: seq<Node>)
    ensures SetOf(head) + SetOf(tail) + SetOf(features) + SetOf(groups) == SetOf(head + features + groups + tail)
  {}

  lemma AddedIsLinked(before: Rows, rows: Rows, nodes: seq<Node>, rest: set<Node>, home: New, idMap: IdMap)
    requires Known(nodes, idMap) && Added(before, rows, nodes, home, idMap)
    requires forall n :: n in rest ==> ToOrigin !in n.links && ToStory !in n.links
    ensures Linked(before, rows, nodes, rest, home, idMap)
  {
    LinkedAnyway(before, rows, nodes, {}, rest, home, idMap);
    assert {} + rest == rest;
  }

  /** With every late link set, two rows share an implicit group's story exactly when their objects did. */
  lemma StoriesUniqueWhen(before: Rows, after: Rows, nodes: seq<Node>, home: New, idMap: IdMap)
    requires FreshMap(before, home, idMap) && Known(nodes, idMap) && Apart(nodes) && StoriesUnique(before)
    requires Linked(before, after, nodes, SetOf(nodes), home, idMap)
    ensures StoriesUnique(after) <==> StoriesApart(nodes, idMap.Keys)
  {
    forall n | n in nodes ensures after[KeyFor(n, idMap)] == FinalRow(n, home, idMap) {
      assert n in SetOf(nodes);
    }
    if StoriesUnique(after) {
      forall i, j | 0 <= i < j < |nodes| ensures !SharesStory(nodes[i], nodes[j], idMap.Keys) {
        SharedStoryShows(after, nodes, i, j, home, idMap);
      }
    }
    if StoriesApart(nodes, idMap.Keys) {
      forall j, k | j in after && k in after && j != k && j.kind == k.kind
        ensures !SameStory(j.kind, after[j], after[k])
      {
        NoSharedStory(before, after, nodes, j, k, home, idMap);
      }
    }
  }

  lemma SharedStoryShows(after: Rows, nodes: seq<Node>, i: nat, j: nat, home: New, idMap: IdMap)
    requires Known(nodes, idMap) && Apart(nodes) && i < j < |nodes|
    requires forall x, y :: x in idMap && y in idMap && idMap[x] == idMap[y] ==> x == y
    requires forall n :: n in nodes ==> KeyFor(n, idMap) in after && after[KeyFor(n, idMap)] == FinalRow(n, home, idMap)
    ensures SharesStory(nodes[i], nodes[j], idMap.Keys) ==> !StoriesUnique(after)
  {
    var a, b := nodes[i], nodes[j];
    assert a in nodes && b in nodes && !Conflict(a, b);
    if SharesStory(a, b, idMap.Keys) {
      assert SameStory(Group, after[KeyFor(a, idMap)], after[KeyFor(b, idMap)]);
    }
  }

  lemma NoSharedStory(before: Rows, after: Rows, nodes: seq<Node>, j: Key, k: Key, home: New, idMap: IdMap)
    requires FreshMap(before, home, idMap) && Known(nodes, idMap) && StoriesUnique(before)
    requires StoriesApart(nodes, idMap.Keys)
    requires after.Keys == before.Keys + KeysOf(nodes, idMap) && forall x :: x in before ==> after[x] == before[x]
    requires forall n :: n in nodes ==> KeyFor(n, idMap) in after && after[KeyFor(n, idMap)] == FinalRow(n, home, idMap)
    requires j in after && k in after && j != k && j.kind == k.kind
    ensures !SameStory(j.kind, after[j], after[k])
  {
    if j in before && k in before {
      assert !SameStory(j.kind, before[j], before[k]);
    } else if j !in before && k !in before {
      var a :| a in nodes && KeyFor(a, idMap) == j;
      var b :| b in nodes && KeyFor(b, idMap) == k;
      NodesShareNot(nodes, a, b, idMap.Keys);
    }
  }

  lemma NodesShareNot(nodes: seq<Node>, a: Node, b: Node, known: set<Old>)
    requires StoriesApart(nodes, known) && a in nodes && b in nodes && a != b
    ensures !SharesStory(a, b, known)
  {
    var i :| 0 <= i < |nodes| && nodes[i] == a;
    var j :| 0 <= j < |nodes| && nodes[j] == b;
    if i < j {
      assert !SharesStory(nodes[i], nodes[j], known);
    } else {
      assert !SharesStory(nodes[j], nodes[i], known);
    }
  }

  /** The second pass. */
  method LinkAll(p: Payload, home: New, idMap: IdMap, rows: Rows, ghost before: Rows) returns (r: Result<Rows, Error>)
    requires idMap.Keys == AllIds(p) && FreshMap(before, home, idMap) && HomeIs(p, home, idMap)
    requires Known(Nodes(p), idMap)
    requires Added(before, rows, Nodes(p), home, idMap) && !AnyDangling(Nodes(p), idMap.Keys) && StoriesUnique(before)
    ensures r.Ok? ==> Imported(before, r.value, p, home, idMap) && StoriesUnique(r.value)
    ensures r.Ok? <==> StoriesApart(Nodes(p), idMap.Keys)
    ensures r.Err? ==> r.error == Integrity
  {
    ghost var head := Structures(p.pis) + States(p);
    PartsOfPayloadFit(p);
    var features := Read(Feature, p.features, None);
    var after := LinkParts(head, features, Groups(p.pis), Stories(p), Nodes(p), home, idMap, rows, before);
    StoriesUniqueWhen(before, after, Nodes(p), home, idMap);
    assert forall n :: n in Nodes(p) ==> n in SetOf(Nodes(p));
    r := if StoriesUnique(after) then Ok(after) else Err(Integrity);
  }

  lemma PartsOfPayloadFit(p: Payload)
    ensures PartsFit(Structures(p.pis) + States(p), Features(p), Groups(p.pis), Stories(p))
  {
    StructuresKinds(p.pis);
    NodesOfKind(State, p.states, None);
    NodesOfKind(Feature, p.features, None);
    NodesOfKind(Story, p.stories, None);
  }

  // ---- what an import builds ----------------------------------------------------------

  /**
   * The new rows are the payload's objects over again: one row each and no others, of the same kind and content, in
   * the new project, and one object refers to another exactly when its row refers to the other's row.
   */
  lemma ImportIsIsomorphic(before: Rows, after: Rows, p: Payload, home: New, idMap: IdMap)
    requires Imported(before, after, p, home, idMap)
    ensures after.Keys - before.Keys == KeysOf(Nodes(p), idMap) && before.Keys !! KeysOf(Nodes(p), idMap)
    ensures forall a, b :: a in Nodes(p) && b in Nodes(p) && KeyFor(a, idMap) == KeyFor(b, idMap) ==> a == b
    ensures forall a :: a in Nodes(p) ==>
      after[KeyFor(a, idMap)].body == a.body && after[KeyFor(a, idMap)].tag == a.tag
    ensures forall a :: a in Nodes(p) && Parent(a.kind) == ToProject ==>
      ToProject in after[KeyFor(a, idMap)].links && after[KeyFor(a, idMap)].links[ToProject] == home
    ensures forall a, b, f :: a in Nodes(p) && b in Nodes(p) ==>
      (Refers(a.links, f, b.id) <==> Refers(after[KeyFor(a, idMap)].links, f, idMap[b.id]))
  {
    ImportsOnce(before, Nodes(p), home, idMap);
    NodesAreWithin(p);
    forall a, b, f | a in Nodes(p) && b in Nodes(p)
      ensures Refers(a.links, f, b.id) <==> Refers(after[KeyFor(a, idMap)].links, f, idMap[b.id])
    {
      EdgesCorrespond(before, a, b, f, home, idMap);
    }
  }

  lemma ImportsOnce(before: Rows, nodes: seq<Node>, home: New, idMap: IdMap)
    requires FreshMap(before, home, idMap) && Known(nodes, idMap) && Apart(nodes)
    ensures before.Keys !! KeysOf(nodes, idMap)
    ensures forall a, b :: a in nodes && b in nodes && KeyFor(a, idMap) == KeyFor(b, idMap) ==> a == b
  {
    forall a, b | a in nodes && b in nodes && KeyFor(a, idMap) == KeyFor(b, idMap) ensures a == b {
      OneNodePerKey(before, nodes, home, idMap, a, b);
    }
  }

  lemma EdgesCorrespond(before: Rows, a: Node, b: Node, f: Field, home: New, idMap: IdMap)
    requires FreshMap(before, home, idMap) && Placed(a, idMap) && b.id in idMap && idMap[b.id] != home
    ensures Refers(a.links, f, b.id) <==> Refers(FinalRow(a, home, idMap).links, f, idMap[b.id])
  {
    EveryField(f);
  }

  predicate Refers<K(==)>(links: map<Field, K>, f: Field, k: K) {
    f in links && links[f] == k
  }

  lemma EveryField(f: Field)
    ensures f != ToProject ==> f in ALL
  {
    match f
    case ToProject =>
    case ToPi =>
    case ToLane =>
    case ToState =>
    case ToFeature =>
    case ToGroup =>
    case ToOrigin =>
    case ToStory =>
  }

  /** A reference survives exactly when the payload has what it names, and never leads to a row from before. */
  lemma UnknownLinksAreDropped(before: Rows, after: Rows, p: Payload, home: New, idMap: IdMap, n: Node, f: Field)
    requires Imported(before, after, p, home, idMap) && n in Nodes(p)
    ensures f in after[KeyFor(n, idMap)].links <==>
      if f == ToProject then Parent(n.kind) == ToProject else f in n.links && n.links[f] in AllIds(p)
    ensures f in after[KeyFor(n, idMap)].links ==>
      forall k :: k in before ==> k.id != after[KeyFor(n, idMap)].links[f]
  {
    EveryField(f);
  }

  /** A group's or a story's feature is a feature row exactly when the payload's reference named a feature. */
  lemma FeatureIsFeatureWhen(before: Rows, after: Rows, p: Payload, home: New, idMap: IdMap, n: Node)
    requires Imported(before, after, p, home, idMap) && n in Nodes(p) && (n.kind == Group || n.kind == Story)
    ensures ToFeature in n.links && ToFeature in after[KeyFor(n, idMap)].links
    ensures
      Key(Feature, after[KeyFor(n, idMap)].links[ToFeature]) in after <==>
      exists m :: m in Nodes(p) && m.kind == Feature && m.id == n.links[ToFeature]
  {
    FeatureLink(n, home, idMap);
    var target := idMap[n.links[ToFeature]];
    if Key(Feature, target) in after {
      var m :| m in Nodes(p) && KeyFor(m, idMap) == Key(Feature, target);
    }
    if m :| m in Nodes(p) && m.kind == Feature && m.id == n.links[ToFeature] {
      assert KeyFor(m, idMap) == Key(Feature, target);
    }
  }

  lemma FeatureLink(n: Node, home: New, idMap: IdMap)
    requires (n.kind == Group || n.kind == Story) && !IsDangling(n, idMap.Keys)
    ensures ToFeature in FinalRow(n, home, idMap).links
    ensures FinalRow(n, home, idMap).links[ToFeature] == idMap[n.links[ToFeature]]
  {}

  /** A story whose parent is the project itself is not refused. */
  lemma ProjectAsParentIsAccepted(tag: Option<string>, body: string)
    ensures
      var p := Payload("p", "name", [], [], [Raw("s", tag, body, map[ToFeature := "p"])], []);
      Verdict(p) == None && forall m :: m in Nodes(p) ==> m.kind != Feature
  {
    var p := Payload("p", "name", [], [], [Raw("s", tag, body, map[ToFeature := "p"])], []);
    assert |Nodes(p)| == 1 && Nodes(p)[0].kind == Story && Nodes(p)[0].links[ToFeature] == "p";
    VerdictIs(p);
  }

  // ---- a free name --------------------------------------------------------------------

  function Digits(n: nat): string
    decreases n
  {
    if n < 10 then [('0' as int + n) as char] else Digits(n / 10) + [('0' as int + n % 10) as char]
  }

  function Value(s: string): int {
    if s == "" then 0 else 10 * Value(s[..|s| - 1]) + (s[|s| - 1] as int - '0' as int)
  }

  lemma {:induction false} ValueOfDigits(n: nat)
    ensures Value(Digits(n)) == n && Digits(n) != ""
    decreases n
  {
    if n >= 10 {
      ValueOfDigits(n / 10);
      assert Digits(n)[..|Digits(n)| - 1] == Digits(n / 10);
    } else {
      assert Digits(n)[..0] == "";
    }
  }

  const OPENING := " (imported"

  /** The base, then "(imported)", then "(imported 2)" and so on. */
  function Candidate(base: string, k: nat): string {
    if k == 0 then base else if k == 1 then base + OPENING + ")" else base + OPENING + (" " + Digits(k) + ")")
  }

  /** The number is written in decimal, without leading zeros. */
  lemma {:induction false} DigitsAre(n: nat)
    ensures |Digits(n)| > 0 && (n > 0 ==> Digits(n)[0] != '0') && forall c :: c in Digits(n) ==> '0' <= c <= '9'
    decreases n
  {
    if n >= 10 {
      DigitsAre(n / 10);
    }
  }

  lemma CandidateIs(base: string, k: nat)
    ensures Candidate(base, 0) == base && Candidate(base, 1) == base + " (imported)"
    ensures k >= 2 ==>
      exists d :: Candidate(base, k) == base + " (imported " + d + ")" && Value(d) == k && d != "" && d[0] != '0'
        && forall c :: c in d ==> '0' <= c <= '9'
  {
    if k >= 2 {
      DigitsAre(k);
      ValueOfDigits(k);
      assert OPENING + (" " + Digits(k) + ")") == " (imported " + Digits(k) + ")";
      assert Candidate(base, k) == base + " (imported " + Digits(k) + ")";
    }
  }

  lemma CandidatesDiffer(base: string, j: nat, k: nat)
    requires j != k
    ensures Candidate(base, j) != Candidate(base, k)
  {
    var a, b := Candidate(base, j), Candidate(base, k);
    var n := |base| + |OPENING|;
    if a == b && j >= 2 && k >= 2 {
      assert a[n..] == " " + Digits(j) + ")" && b[n..] == " " + Digits(k) + ")";
      assert a[n..][1..|a[n..]| - 1] == Digits(j) && b[n..][1..|b[n..]| - 1] == Digits(k);
      ValueOfDigits(j);
      ValueOfDigits(k);
    } else if j >= 1 && k >= 1 {
      assert (j == 1 ==> a[n] == ')') && (j >= 2 ==> a[n] == ' ');
      assert (k == 1 ==> b[n] == ')') && (k >= 2 ==> b[n] == ' ');
    }
  }

  /** Tries one candidate after another; it ends, since only so many names are taken. */
  method UniqueProjectName(taken: set<string>, base: string) returns (name: string, ghost k: nat)
    ensures name !in taken && name == Candidate(base, k)
    ensures forall j: nat :: j < k ==> Candidate(base, j) in taken
  {
    name, k := base, 0;
    var suffix: nat := 1;
    ghost var left := taken;
    while name in taken
      invariant name == Candidate(base, k) && suffix == k + 1
      invariant forall j: nat :: j < k ==> Candidate(base, j) in taken
      invariant left <= taken && forall j: nat :: k <= j && Candidate(base, j) in taken ==> Candidate(base, j) in left
      decreases |left|
    {
      forall j: nat | k < j ensures Candidate(base, j) != name {
        CandidatesDiffer(base, j, k);
      }
      left := left - {name};
      name := if suffix == 1 then base + OPENING + ")" else base + OPENING + (" " + Digits(suffix) + ")");
      suffix, k := suffix + 1, k + 1;
    }
  }

  class Projects {
    var names: map<New, string>
    var rows: Rows

    constructor ()
      ensures names == map[] && rows == map[] && StoriesUnique(rows)
    {
      names, rows := map[], map[];
    }

    /**
     * Everything is written or nothing: refused when a group or story names no known object as its feature, or
     * two objects conflict; otherwise rebuilt under fresh ids and a name no project has.
     */
    method ImportProject(p: Payload, supply: nat -> New) returns (r: Result<IdMap, Error>)
      requires Random(supply, rows) && StoriesUnique(rows) && forall i :: supply(i) !in names
      modifies this
      ensures StoriesUnique(rows)
      ensures if r.Err? then Verdict(p) == Some(r.error) else Verdict(p) == None
      ensures r.Err? ==> rows == old(rows) && names == old(names)
      ensures r.Ok? ==> Imported(old(rows), rows, p, supply(0), r.value)
      ensures r.Ok? ==> exists k: nat ::
        && names == old(names)[supply(0) := Candidate(p.name, k)] && Candidate(p.name, k) !in old(names).Values
        && forall j: nat :: j < k ==> Candidate(p.name, j) in old(names).Values
      ensures r.Ok? ==> forall x, y :: x in r.value && y in r.value && r.value[x] == r.value[y] ==> x == y
      ensures r.Ok? ==> forall x, k :: x in r.value && k in old(rows) ==> k.id != r.value[x]
    {
      var name, k := UniqueProjectName(names.Values, p.name);
      var home := supply(0);
      var idMap := BuildIdMap(p, home, supply, rows);
      NodesAreWithin(p);
      VerdictIs(p);
      var added := AddAll(p, home, idMap, rows);
      if added.Err? {
        return Err(added.error);
      }
      var linked := LinkAll(p, home, idMap, added.value, rows);
      if linked.Err? {
        return Err(linked.error);
      }
      rows := linked.value;
      names := names[home := name];
      r := Ok(idMap);
    }
  }
}
