/**
 * Exporting a project (backend/app/services/snapshot.py) and importing what was exported
 * (backend/app/routes/projects.py).
 *
 * An export names everything by the id it is stored under; here stored ids and those of a payload are different types,
 * and a function gives each stored id its name.
 */
module ProjectExport {
  import opened Wrappers
  import opened ProjectImport
  import opened ImportedBoard
  import Invariants = BoardInvariants
  import Lineage

  /** Of the project: by a link of its own, or by way of its PI or its swimlane. */
  predicate InProject(rows: Rows, k: Key, home: New)
    decreases if k.kind == Group then 2 else if k.kind == Pi then 0 else 1
  {
    && k in rows && Parent(k.kind) in rows[k].links
    && var parent := rows[k].links[Parent(k.kind)];
       if Parent(k.kind) == ToPi then InProject(rows, Key(Pi, parent), home)
       else if Parent(k.kind) == ToLane then InProject(rows, Key(Lane, parent), home)
       else parent == home
  }

  type Naming = New -> Old

  ghost predicate OneToOne(name: Naming) {
    forall x, y :: name(x) == name(y) ==> x == y
  }

  function Named(links: map<Field, New>, name: Naming): map<Field, Old> {
    map f | f in links && f != ToProject :: name(links[f])
  }

  /** A row as the payload spells it. */
  function Spelled(k: Key, row: Row, name: Naming): Node {
    Node(k.kind, name(k.id), row.tag, row.body, Named(row.links, name))
  }

  /** The payload holds each row of the project once, and nothing else. */
  ghost predicate Exports(p: Payload, rows: Rows, home: New, name: Naming) {
    && p.project == name(home)
    && (forall k :: InProject(rows, k, home) ==> Spelled(k, rows[k], name) in Nodes(p))
    && (forall n :: n in Nodes(p) ==> exists k :: InProject(rows, k, home) && n == Spelled(k, rows[k], name))
    && (forall i, j :: 0 <= i < j < |Nodes(p)| ==> Nodes(p)[i] != Nodes(p)[j])
  }

  // ---- what the tables hold -----------------------------------------------------------

  /** The unique indexes, over the rows. */
  ghost predicate TagsUnique(rows: Rows) {
    forall j, k :: j in rows && k in rows && j != k && j.kind == k.kind ==>
      !SameTag(j.kind, rows[j], rows[k]) && !SameStory(j.kind, rows[j], rows[k])
  }

  /** A row has its parent and the references of its kind. */
  predicate FieldsFit(kind: Kind, row: Row) {
    Parent(kind) in row.links && forall f :: f in row.links ==> f == Parent(kind) || f in Reads(kind)
  }

  ghost predicate Fields(rows: Rows) {
    forall k :: k in rows ==> FieldsFit(k.kind, rows[k])
  }

  // ---- an export is accepted ----------------------------------------------------------

  lemma SpelledConflictNot(rows: Rows, home: New, name: Naming, j: Key, k: Key)
    requires OneToOne(name) && TagsUnique(rows) && j != k && InProject(rows, j, home) && InProject(rows, k, home)
    ensures !Conflict(Spelled(j, rows[j], name), Spelled(k, rows[k], name))
  {
    assert j.kind == k.kind ==> !SameTag(j.kind, rows[j], rows[k]);
  }

  lemma SpelledShareNot(rows: Rows, home: New, name: Naming, j: Key, k: Key, known: set<Old>)
    requires OneToOne(name) && TagsUnique(rows) && j != k && InProject(rows, j, home) && InProject(rows, k, home)
    ensures !SharesStory(Spelled(j, rows[j], name), Spelled(k, rows[k], name), known)
  {
    assert j.kind == k.kind ==> !SameStory(j.kind, rows[j], rows[k]);
  }

  lemma ExportIsApart(p: Payload, rows: Rows, home: New, name: Naming)
    requires Exports(p, rows, home, name) && OneToOne(name) && TagsUnique(rows)
    ensures Apart(Nodes(p)) && StoriesApart(Nodes(p), AllIds(p))
  {
    var nodes := Nodes(p);
    forall a, b | 0 <= a < b < |nodes|
      ensures !Conflict(nodes[a], nodes[b]) && !SharesStory(nodes[a], nodes[b], AllIds(p))
    {
      assert nodes[a] in nodes && nodes[b] in nodes;
      var j :| InProject(rows, j, home) && nodes[a] == Spelled(j, rows[j], name);
      var k :| InProject(rows, k, home) && nodes[b] == Spelled(k, rows[k], name);
      SpelledConflictNot(rows, home, name, j, k);
      SpelledShareNot(rows, home, name, j, k, AllIds(p));
    }
  }

  /** What is in the project has its name in the payload. */
  lemma ExportedIsKnown(p: Payload, rows: Rows, home: New, name: Naming, k: Key)
    requires Exports(p, rows, home, name) && InProject(rows, k, home)
    ensures name(k.id) in AllIds(p)
  {
    NodesAreWithin(p);
    assert Spelled(k, rows[k], name) in Nodes(p);
  }

  /** Of the project, or the project itself. */
  ghost predicate Inside(rows: Rows, x: New, home: New) {
    x == home || exists j :: InProject(rows, j, home) && j.id == x
  }

  ghost predicate FeatureInside(rows: Rows, row: Row, home: New) {
    ToFeature in row.links && Inside(rows, row.links[ToFeature], home)
  }

  /** The payload knows the names of the project and of its rows, and no others. */
  lemma NamesKnown(p: Payload, rows: Rows, home: New, name: Naming, x: New)
    requires Exports(p, rows, home, name) && OneToOne(name)
    ensures name(x) in AllIds(p) <==> Inside(rows, x, home)
  {
    ObjectIdsAre(p);
    if name(x) in ObjectIds(p) {
      var n :| n in Nodes(p) && n.id == name(x);
      var j :| InProject(rows, j, home) && n == Spelled(j, rows[j], name);
      assert j.id == x;
    }
    if j :| InProject(rows, j, home) && j.id == x {
      assert Spelled(j, rows[j], name) in Nodes(p);
    }
  }

  lemma SpelledDanglesWhen(p: Payload, rows: Rows, home: New, name: Naming, k: Key)
    requires Exports(p, rows, home, name) && OneToOne(name) && InProject(rows, k, home)
    ensures IsDangling(Spelled(k, rows[k], name), AllIds(p)) <==>
      (k.kind == Group || k.kind == Story) && !FeatureInside(rows, rows[k], home)
  {
    if ToFeature in rows[k].links {
      NamesKnown(p, rows, home, name, rows[k].links[ToFeature]);
    }
  }

  /** An import refuses an export exactly when some group or story of the project has its feature outside. */
  lemma ExportIsAcceptedWhen(p: Payload, rows: Rows, home: New, name: Naming)
    requires Exports(p, rows, home, name) && OneToOne(name) && TagsUnique(rows)
    ensures Verdict(p) == None <==>
      forall k :: InProject(rows, k, home) && (k.kind == Group || k.kind == Story) ==>
        FeatureInside(rows, rows[k], home)
  {
    ExportIsApart(p, rows, home, name);
    VerdictIs(p);
    forall k | InProject(rows, k, home)
      ensures IsDangling(Spelled(k, rows[k], name), AllIds(p)) <==>
        (k.kind == Group || k.kind == Story) && !FeatureInside(rows, rows[k], home)
    {
      SpelledDanglesWhen(p, rows, home, name, k);
    }
  }

  // ---- and comes back as it was -------------------------------------------------------

  /**
   * Imported again, wherever to, the project is there once more: each of its rows has a copy in the new project, with
   * the same tag and body, whose references lead to the copies of what the row refers to; a reference out of the
   * project is dropped; and nothing else is new.
   */
  lemma ImportOfExportCopies(
      p: Payload, rows: Rows, home: New, name: Naming, before: Rows, after: Rows, to: New, idMap: IdMap)
    requires Exports(p, rows, home, name) && OneToOne(name) && Fields(rows)
    requires Imported(before, after, p, to, idMap)
    ensures forall k :: InProject(rows, k, home) ==> RowCopied(rows, k, home, name, before, after, to, idMap)
    ensures forall j, k :: InProject(rows, j, home) && InProject(rows, k, home) ==>
      (Key(j.kind, idMap[name(j.id)]) == Key(k.kind, idMap[name(k.id)]) ==> j == k)
    ensures forall copy :: copy in after && copy !in before ==>
      exists k :: InProject(rows, k, home) && copy == Key(k.kind, idMap[name(k.id)])
  {
    forall k | InProject(rows, k, home) ensures RowCopied(rows, k, home, name, before, after, to, idMap) {
      RowIsCopied(p, rows, home, name, before, after, to, idMap, k);
    }
    forall copy | copy in after && copy !in before
      ensures exists k :: InProject(rows, k, home) && copy == Key(k.kind, idMap[name(k.id)])
    {
      var n :| n in Nodes(p) && KeyFor(n, idMap) == copy;
      var k :| InProject(rows, k, home) && n == Spelled(k, rows[k], name);
    }
  }

  /** A new row is the copy of this one. */
  ghost predicate RowCopied(
      rows: Rows, k: Key, home: New, name: Naming, before: Rows, after: Rows, to: New, idMap: IdMap)
    requires k in rows
  {
    && name(k.id) in idMap
    && var copy := Key(k.kind, idMap[name(k.id)]);
       copy in after && copy !in before && Copies(after[copy], rows[k], rows, home, name, to, idMap)
  }

  /** The same tag and body, in the new project, with a reference to the copy of what it was to, if that was inside. */
  ghost predicate Copies(copy: Row, row: Row, rows: Rows, home: New, name: Naming, to: New, idMap: IdMap) {
    && copy.tag == row.tag && copy.body == row.body
    && (forall f :: f in copy.links <==> f in row.links && (f == ToProject || Inside(rows, row.links[f], home)))
    && (ToProject in copy.links ==> copy.links[ToProject] == to)
    && forall f :: f in copy.links && f != ToProject ==>
         name(row.links[f]) in idMap && copy.links[f] == idMap[name(row.links[f])]
  }

  lemma RowIsCopied(
      p: Payload, rows: Rows, home: New, name: Naming, before: Rows, after: Rows, to: New, idMap: IdMap, k: Key)
    requires Exports(p, rows, home, name) && OneToOne(name) && Fields(rows) && Imported(before, after, p, to, idMap)
    requires InProject(rows, k, home)
    ensures RowCopied(rows, k, home, name, before, after, to, idMap)
  {
    var n := Spelled(k, rows[k], name);
    assert n in Nodes(p) && KeyFor(n, idMap) == Key(k.kind, idMap[name(k.id)]);
    assert FieldsFit(k.kind, rows[k]);
    forall f | f in rows[k].links ensures name(rows[k].links[f]) in idMap <==> Inside(rows, rows[k].links[f], home) {
      NamesKnown(p, rows, home, name, rows[k].links[f]);
    }
    SpelledIsCopied(k, rows[k], name, to, idMap);
  }

  lemma SpelledIsCopied(k: Key, row: Row, name: Naming, to: New, idMap: IdMap)
    requires FieldsFit(k.kind, row)
    ensures
      var copy := FinalRow(Spelled(k, row, name), to, idMap);
      && copy.tag == row.tag && copy.body == row.body
      && (forall f :: f in copy.links <==> f in row.links && (f == ToProject || name(row.links[f]) in idMap))
      && (forall f :: f in copy.links ==>
            copy.links[f] == if f == ToProject then to else idMap[name(row.links[f])])
  {
    forall f | f in row.links && f != ToProject ensures f in ALL {
      EveryField(f);
    }
  }

  // ---- a whole board stays whole ------------------------------------------------------

  /** The kind of row a reference on the board is to. */
  function TargetKind(f: Field): Option<Kind> {
    match f
    case ToFeature => Some(Feature)
    case ToOrigin => Some(Feature)
    case ToGroup => Some(Group)
    case ToLane => Some(Lane)
    case _ => None
  }

  predicate LeadsInside(rows: Rows, row: Row, f: Field, home: New) {
    f in row.links && TargetKind(f).Some? ==> InProject(rows, Key(TargetKind(f).value, row.links[f]), home)
  }

  /** On the board, the project's rows refer to rows of the project. */
  ghost predicate Closed(rows: Rows, home: New) {
    forall k, f :: InProject(rows, k, home) ==> LeadsInside(rows, rows[k], f, home)
  }

  lemma LeadIsSpelled(p: Payload, rows: Rows, home: New, name: Naming, k: Key, f: Field, kind: Kind)
    requires Exports(p, rows, home, name) && Closed(rows, home) && InProject(rows, k, home) && f in rows[k].links
    requires TargetKind(f) == Some(kind)
    ensures Key(kind, rows[k].links[f]) in rows && InProject(rows, Key(kind, rows[k].links[f]), home)
    ensures Spelled(Key(kind, rows[k].links[f]), rows[Key(kind, rows[k].links[f])], name) in Nodes(p)
    ensures name(rows[k].links[f]) in AllIds(p)
  {
    assert LeadsInside(rows, rows[k], f, home);
    ExportedIsKnown(p, rows, home, name, Key(kind, rows[k].links[f]));
  }

  lemma SpelledGroupFits(p: Payload, rows: Rows, home: New, name: Naming, k: Key)
    requires Exports(p, rows, home, name) && Closed(rows, home) && InProject(rows, k, home)
    requires k.kind == Group && GroupStands(rows, rows[k])
    ensures GroupFits(Nodes(p), Spelled(k, rows[k], name))
  {
    LeadIsSpelled(p, rows, home, name, k, ToFeature, Feature);
    var feature := Key(Feature, rows[k].links[ToFeature]);
    var m := Spelled(feature, rows[feature], name);
    assert Refers(m.links, ToLane, name(rows[k].links[ToLane]));
  }

  lemma SpelledStoryFits(p: Payload, rows: Rows, home: New, name: Naming, k: Key)
    requires Exports(p, rows, home, name) && Closed(rows, home) && InProject(rows, k, home)
    requires k.kind == Story && StoryStands(rows, rows[k])
    ensures StoryFits(Nodes(p), Spelled(k, rows[k], name), AllIds(p))
  {
    LeadIsSpelled(p, rows, home, name, k, ToFeature, Feature);
    assert Names(Nodes(p), Feature, name(rows[k].links[ToFeature]));
    if ToGroup in rows[k].links {
      SpelledGroupIsItsFeatures(p, rows, home, name, k);
    }
  }

  lemma SpelledGroupIsItsFeatures(p: Payload, rows: Rows, home: New, name: Naming, k: Key)
    requires Exports(p, rows, home, name) && Closed(rows, home) && InProject(rows, k, home)
    requires k.kind == Story && StoryStands(rows, rows[k]) && ToGroup in rows[k].links
    ensures NamesWith(
      Nodes(p), Group, name(rows[k].links[ToGroup]), ToFeature, name(rows[k].links[ToFeature]))
  {
    LeadIsSpelled(p, rows, home, name, k, ToGroup, Group);
    var group := Key(Group, rows[k].links[ToGroup]);
    var m := Spelled(group, rows[group], name);
    assert Refers(m.links, ToFeature, name(rows[k].links[ToFeature]));
  }

  lemma SpelledFits(p: Payload, rows: Rows, home: New, name: Naming, k: Key, c: Columns)
    requires Exports(p, rows, home, name) && Closed(rows, home) && AllStand(rows, c) && InProject(rows, k, home)
    ensures Fits(Nodes(p), Spelled(k, rows[k], name), AllIds(p), c)
  {
    assert Stands(rows, k.kind, rows[k], c);
    match k.kind
    case Group => SpelledGroupFits(p, rows, home, name, k);
    case Story => SpelledStoryFits(p, rows, home, name, k);
    case Feature =>
      if ToLane in rows[k].links {
        LeadIsSpelled(p, rows, home, name, k, ToLane, Lane);
      }
    case _ =>
  }

  lemma OriginIsSpelled(p: Payload, rows: Rows, home: New, name: Naming, k: Key)
    requires Exports(p, rows, home, name) && Closed(rows, home) && InProject(rows, k, home)
    ensures ToOrigin in rows[k].links ==> Names(Nodes(p), Feature, name(rows[k].links[ToOrigin]))
  {
    if ToOrigin in rows[k].links {
      LeadIsSpelled(p, rows, home, name, k, ToOrigin, Feature);
    }
  }

  lemma OriginIsLower(
      nodes: seq<Node>, known: set<Old>, rows: Rows, name: Naming, c: Columns, rank: map<New, nat>,
      ranks: map<Old, nat>, k: Key)
    requires k in rows && k.kind == Feature && Lineage.Ranked(FeaturesOf(rows, c), rank)
    requires ToOrigin in rows[k].links ==> Names(nodes, Feature, name(rows[k].links[ToOrigin]))
    requires forall id :: id in rank ==> name(id) in ranks && ranks[name(id)] == rank[id]
    ensures
      var n := Spelled(k, rows[k], name);
      && n.id in ranks
      && (Resolves(n, ToOrigin, known) ==>
            && Names(nodes, Feature, n.links[ToOrigin]) && n.links[ToOrigin] in ranks
            && ranks[n.links[ToOrigin]] < ranks[n.id])
  {
    OriginRanked(rows, c, rank, k);
  }

  lemma OriginRanked(rows: Rows, c: Columns, rank: map<New, nat>, k: Key)
    requires k in rows && k.kind == Feature && Lineage.Ranked(FeaturesOf(rows, c), rank)
    ensures k.id in rank
    ensures ToOrigin in rows[k].links ==> rows[k].links[ToOrigin] in rank && rank[rows[k].links[ToOrigin]] < rank[k.id]
  {
    assert k.id in FeaturesOf(rows, c);
    assert FeaturesOf(rows, c)[k.id] == FeatureOf(rows[k], c);
  }

  lemma RanksSpelled(rank: map<New, nat>, name: Naming) returns (ranks: map<Old, nat>)
    requires OneToOne(name)
    ensures forall id :: id in rank ==> name(id) in ranks && ranks[name(id)] == rank[id]
  {
    ranks := map id | id in rank :: name(id) := rank[id];
  }

  lemma ExportedOriginsEnd(p: Payload, rows: Rows, home: New, name: Naming, c: Columns)
    requires Exports(p, rows, home, name) && OneToOne(name) && Closed(rows, home)
    requires Lineage.Forest(FeaturesOf(rows, c))
    ensures OriginsEnd(Nodes(p), AllIds(p))
  {
    var rank :| Lineage.Ranked(FeaturesOf(rows, c), rank);
    var ranks := RanksSpelled(rank, name);
    forall n | n in Nodes(p) && n.kind == Feature
      ensures n.id in ranks
      ensures Resolves(n, ToOrigin, AllIds(p)) ==>
        && Names(Nodes(p), Feature, n.links[ToOrigin]) && n.links[ToOrigin] in ranks
        && ranks[n.links[ToOrigin]] < ranks[n.id]
    {
      var k :| InProject(rows, k, home) && n == Spelled(k, rows[k], name);
      OriginIsSpelled(p, rows, home, name, k);
      OriginIsLower(Nodes(p), AllIds(p), rows, name, c, rank, ranks, k);
    }
    assert OriginsRanked(Nodes(p), AllIds(p), ranks);
  }

  /** A project exported from a whole board leaves whole any whole board it is imported into. */
  lemma ExportedBoardComesBackWhole(
      p: Payload, rows: Rows, home: New, name: Naming, before: Rows, after: Rows, to: New, idMap: IdMap, c: Columns)
    requires Exports(p, rows, home, name) && OneToOne(name) && Closed(rows, home)
    requires Complete(rows) && Invariants.Valid(BoardOf(rows, c))
    requires Imported(before, after, p, to, idMap)
    requires Complete(before) && Invariants.Valid(BoardOf(before, c))
    ensures Complete(after) && Invariants.Valid(BoardOf(after, c))
  {
    WholeIsStanding(rows, c);
    forall n | n in Nodes(p) ensures Fits(Nodes(p), n, AllIds(p), c) {
      var k :| InProject(rows, k, home) && n == Spelled(k, rows[k], name);
      SpelledFits(p, rows, home, name, k, c);
    }
    ExportedOriginsEnd(p, rows, home, name, c);
    ImportKeepsBoardWhen(before, after, p, to, idMap, c);
  }

  // ---- writing an export --------------------------------------------------------------

  /** Each of these rows once, as the payload spells them, in any order. */
  ghost function Spellings(rows: Rows, keys: set<Key>, name: Naming): multiset<Node> {
    multiset(set k | k in keys && k in rows :: Spelled(k, rows[k], name))
  }

  lemma SpellingsAdd(rows: Rows, a: set<Key>, b: set<Key>, name: Naming)
    requires OneToOne(name) && a !! b
    ensures Spellings(rows, a + b, name) == Spellings(rows, a, name) + Spellings(rows, b, name)
  {
    var left := set k | k in a && k in rows :: Spelled(k, rows[k], name);
    var right := set k | k in b && k in rows :: Spelled(k, rows[k], name);
    forall n | n in left ensures n !in right {
      var j :| j in a && j in rows && n == Spelled(j, rows[j], name);
      forall k | k in b && k in rows ensures Spelled(k, rows[k], name) != n {
        assert j != k;
      }
    }
    assert (set k | k in a + b && k in rows :: Spelled(k, rows[k], name)) == left + right;
  }

  lemma SpellingsOne(rows: Rows, k: Key, name: Naming)
    requires k in rows
    ensures Spellings(rows, {k}, name) == multiset{Spelled(k, rows[k], name)}
  {
    assert (set j | j in {k} && j in rows :: Spelled(j, rows[j], name)) == {Spelled(k, rows[k], name)};
  }

  /** What the query for one kind under one parent finds. */
  function Children(rows: Rows, kind: Kind, parent: New): (found: set<Key>)
    ensures found <= rows.Keys
  {
    set k | k in rows && k.kind == kind && Parent(kind) in rows[k].links && rows[k].links[Parent(kind)] == parent
  }

  function RawOf(k: Key, row: Row, name: Naming): Raw {
    Raw(name(k.id), row.tag, row.body, map f | f in row.links && f in Reads(k.kind) :: name(row.links[f]))
  }

  function ParentName(kind: Kind, parent: New, name: Naming): Option<Old> {
    if Parent(kind) == ToProject then None else Some(name(parent))
  }

  lemma RawIsSpelled(k: Key, row: Row, name: Naming)
    requires FieldsFit(k.kind, row)
    ensures
      NodeOf(k.kind, RawOf(k, row, name), ParentName(k.kind, row.links[Parent(k.kind)], name)) == Spelled(k, row, name)
  {
    var parent := ParentName(k.kind, row.links[Parent(k.kind)], name);
    assert NodeOf(k.kind, RawOf(k, row, name), parent).links == Named(row.links, name);
  }

  /** These keys, each once, in any order. */
  ghost predicate Lists(ks: seq<Key>, all: set<Key>) {
    multiset(ks) == multiset(all)
  }

  // A set worked through one by one.

  lemma NoneDone<T>(all: set<T>)
    ensures all - all == {}
  {}

  lemma OneMoreDone<T>(all: set<T>, todo: set<T>, x: T)
    requires x in todo && todo <= all
    ensures x !in all - todo && (all - todo) + {x} == all - (todo - {x})
  {}

  lemma NoneLeft<T>(all: set<T>)
    ensures all - {} == all
  {}

  /** The keys a query finds, as a list. */
  method Select(rows: Rows, kind: Kind, parent: New) returns (ks: seq<Key>)
    ensures Lists(ks, Children(rows, kind, parent)) && forall k :: k in ks ==> k in Children(rows, kind, parent)
  {
    var all := Children(rows, kind, parent);
    var todo := all;
    ks := [];
    NoneDone(all);
    while todo != {}
      invariant todo <= all && Lists(ks, all - todo) && forall k :: k in ks ==> k in all
      decreases |todo|
    {
      var k :| k in todo;
      OneMoreDone(all, todo, k);
      ks, todo := ks + [k], todo - {k};
    }
    NoneLeft(all);
  }

  lemma LastIsNew(ks: seq<Key>, all: set<Key>)
    requires Lists(ks, all) && ks != []
    ensures
      var last := ks[|ks| - 1];
      last in all && Lists(ks[..|ks| - 1], all - {last}) && all == (all - {last}) + {last}
  {
    var last := ks[|ks| - 1];
    assert ks == ks[..|ks| - 1] + [last];
    assert last in multiset(ks);
    assert multiset(all - {last}) == multiset(all) - multiset{last};
  }

  lemma ListsNothing(all: set<Key>)
    requires Lists([], all)
    ensures all == {}
  {
    forall k ensures k !in all {
      assert k !in multiset(all);
    }
  }

  /** These objects of the payload stand for these rows of one kind under one parent. */
  ghost predicate Wrote(raws: seq<Raw>, rows: Rows, all: set<Key>, kind: Kind, parent: New, name: Naming) {
    multiset(NodesOf(kind, raws, ParentName(kind, parent, name))) == Spellings(rows, all, name)
  }

  lemma {:induction false} RawsAreSpelled(
      raws: seq<Raw>, ks: seq<Key>, rows: Rows, all: set<Key>, kind: Kind, parent: New, name: Naming)
    requires OneToOne(name) && Fields(rows) && Lists(ks, all) && all <= Children(rows, kind, parent)
    requires |raws| == |ks|
    requires forall i :: 0 <= i < |ks| ==> ks[i] in rows && raws[i] == RawOf(ks[i], rows[ks[i]], name)
    ensures Wrote(raws, rows, all, kind, parent, name)
  {
    if ks == [] {
      ListsNothing(all);
    } else {
      LastIsNew(ks, all);
      var n, k := |ks| - 1, ks[|ks| - 1];
      RawsAreSpelled(raws[..n], ks[..n], rows, all - {k}, kind, parent, name);
      RawIsSpelled(k, rows[k], name);
      SpellingsAdd(rows, all - {k}, {k}, name);
      SpellingsOne(rows, k, name);
      assert NodesOf(kind, raws, ParentName(kind, parent, name)) ==
        NodesOf(kind, raws[..n], ParentName(kind, parent, name)) + [Spelled(k, rows[k], name)];
    }
  }

  /** The rows of one kind under one parent, one after another. */
  method Write(rows: Rows, kind: Kind, parent: New, name: Naming) returns (raws: seq<Raw>)
    requires OneToOne(name) && Fields(rows)
    ensures Wrote(raws, rows, Children(rows, kind, parent), kind, parent, name)
  {
    var ks := Select(rows, kind, parent);
    raws := seq(|ks|, i requires 0 <= i < |ks| => RawOf(ks[i], rows[ks[i]], name));
    RawsAreSpelled(raws, ks, rows, Children(rows, kind, parent), kind, parent, name);
  }

  // ---- the swimlanes of a PI ----------------------------------------------------------

  ghost function GroupsUnder(rows: Rows, lanes: set<Key>): (found: set<Key>)
    ensures found <= rows.Keys
  {
    set k | k in rows && k.kind == Group && ToLane in rows[k].links && Key(Lane, rows[k].links[ToLane]) in lanes
  }

  ghost predicate WroteLanes(lanes: seq<LaneTree>, rows: Rows, done: set<Key>, pi: New, name: Naming) {
    && multiset(LaneNodes(lanes, name(pi))) == Spellings(rows, done, name)
    && multiset(GroupsOfLanes(lanes)) == Spellings(rows, GroupsUnder(rows, done), name)
  }

  /** One swimlane as it is written, with its groups. */
  ghost predicate WroteLane(tree: LaneTree, rows: Rows, k: Key, name: Naming) {
    && k in rows && tree.lane == RawOf(k, rows[k], name)
    && Wrote(tree.groups, rows, Children(rows, Group, k.id), Group, k.id, name)
  }

  lemma LaneTreesAppend(lanes: seq<LaneTree>, tree: LaneTree, pi: Old)
    ensures LaneNodes(lanes + [tree], pi) == LaneNodes(lanes, pi) + [NodeOf(Lane, tree.lane, Some(pi))]
    ensures GroupsOfLanes(lanes + [tree]) == GroupsOfLanes(lanes) + GroupsOfLane(tree)
  {
    assert (lanes + [tree])[..|lanes|] == lanes;
  }

  lemma NoLaneYet(rows: Rows, pi: New, name: Naming)
    ensures WroteLanes([], rows, {}, pi, name)
  {
    assert GroupsUnder(rows, {}) == {};
  }

  lemma OneMoreLane(
      lanes: seq<LaneTree>, tree: LaneTree, rows: Rows, done: set<Key>, k: Key, pi: New, name: Naming)
    requires OneToOne(name) && Fields(rows) && WroteLanes(lanes, rows, done, pi, name)
    requires k in Children(rows, Lane, pi) && k.kind == Lane && k !in done && WroteLane(tree, rows, k, name)
    ensures WroteLanes(lanes + [tree], rows, done + {k}, pi, name)
  {
    RawIsSpelled(k, rows[k], name);
    LaneTreesAppend(lanes, tree, name(pi));
    SpellingsAdd(rows, done, {k}, name);
    SpellingsOne(rows, k, name);
    assert GroupsUnder(rows, done + {k}) == GroupsUnder(rows, done) + Children(rows, Group, k.id);
    SpellingsAdd(rows, GroupsUnder(rows, done), Children(rows, Group, k.id), name);
  }

  /** Each swimlane of the PI with its groups. */
  method WriteLanes(rows: Rows, pi: New, name: Naming) returns (lanes: seq<LaneTree>)
    requires OneToOne(name) && Fields(rows)
    ensures WroteLanes(lanes, rows, Children(rows, Lane, pi), pi, name)
  {
    var all := Children(rows, Lane, pi);
    var todo := all;
    lanes := [];
    NoneDone(all);
    NoLaneYet(rows, pi, name);
    while todo != {}
      invariant todo <= all && WroteLanes(lanes, rows, all - todo, pi, name)
      decreases |todo|
    {
      var k :| k in todo;
      var groups := Write(rows, Group, k.id, name);
      var tree := LaneTree(RawOf(k, rows[k], name), groups);
      OneMoreLane(lanes, tree, rows, all - todo, k, pi, name);
      OneMoreDone(all, todo, k);
      lanes, todo := lanes + [tree], todo - {k};
    }
    NoneLeft(all);
  }

  // ---- the PIs of a project -----------------------------------------------------------

  /** The PI a row is under, if it is under one. */
  function PiOf(rows: Rows, k: Key): Option<New>
    requires k in rows
  {
    var links := rows[k].links;
    match k.kind
    case Pi => Some(k.id)
    case Group =>
      if ToLane in links && Key(Lane, links[ToLane]) in rows && ToPi in rows[Key(Lane, links[ToLane])].links then
        Some(rows[Key(Lane, links[ToLane])].links[ToPi])
      else None
    case _ => if Parent(k.kind) == ToPi && ToPi in links then Some(links[ToPi]) else None
  }

  ghost function UnderPis(rows: Rows, pis: set<Key>): (found: set<Key>)
    ensures found <= rows.Keys
  {
    set k | k in rows && PiOf(rows, k).Some? && Key(Pi, PiOf(rows, k).value) in pis
  }

  lemma UnderPiIs(rows: Rows, pi: Key, k: Key)
    requires Fields(rows) && k in rows && pi in rows && pi.kind == Pi
    ensures k in UnderPis(rows, {pi}) <==>
      || k == pi
      || (k.kind in {Lane, Sprint, Event} && k in Children(rows, k.kind, pi.id))
      || k in GroupsUnder(rows, Children(rows, Lane, pi.id))
  {
    assert FieldsFit(k.kind, rows[k]);
  }

  lemma UnderOnePi(rows: Rows, pi: Key)
    requires Fields(rows) && pi in rows && pi.kind == Pi
    ensures UnderPis(rows, {pi}) ==
      {pi} + Children(rows, Lane, pi.id) + Children(rows, Sprint, pi.id) + Children(rows, Event, pi.id)
      + GroupsUnder(rows, Children(rows, Lane, pi.id))
  {
    forall k | k in rows
      ensures k in UnderPis(rows, {pi}) <==>
        || k == pi
        || (k.kind in {Lane, Sprint, Event} && k in Children(rows, k.kind, pi.id))
        || k in GroupsUnder(rows, Children(rows, Lane, pi.id))
    {
      UnderPiIs(rows, pi, k);
    }
  }

  ghost predicate WrotePi(tree: PiTree, rows: Rows, pi: Key, name: Naming) {
    multiset(Structure(tree) + GroupsOfLanes(tree.lanes)) == Spellings(rows, UnderPis(rows, {pi}), name)
  }

  /** One PI with its swimlanes, sprints and events. */
  method WritePi(rows: Rows, pi: Key, name: Naming) returns (tree: PiTree)
    requires OneToOne(name) && Fields(rows) && pi in rows && pi.kind == Pi
    ensures WrotePi(tree, rows, pi, name)
  {
    var lanes := WriteLanes(rows, pi.id, name);
    var sprints := Write(rows, Sprint, pi.id, name);
    var events := Write(rows, Event, pi.id, name);
    tree := PiTree(RawOf(pi, rows[pi], name), lanes, sprints, events);
    PiIsWhole(rows, pi, name, tree);
  }

  lemma PiIsWhole(rows: Rows, pi: Key, name: Naming, tree: PiTree)
    requires OneToOne(name) && Fields(rows) && pi in rows && pi.kind == Pi && tree.pi == RawOf(pi, rows[pi], name)
    requires WroteLanes(tree.lanes, rows, Children(rows, Lane, pi.id), pi.id, name)
    requires Wrote(tree.sprints, rows, Children(rows, Sprint, pi.id), Sprint, pi.id, name)
    requires Wrote(tree.events, rows, Children(rows, Event, pi.id), Event, pi.id, name)
    ensures WrotePi(tree, rows, pi, name)
  {
    var lanes, sprints := Children(rows, Lane, pi.id), Children(rows, Sprint, pi.id);
    var events, groups := Children(rows, Event, pi.id), GroupsUnder(rows, lanes);
    RawIsSpelled(pi, rows[pi], name);
    SpellingsOne(rows, pi, name);
    SpellingsAdd(rows, {pi}, lanes, name);
    SpellingsAdd(rows, {pi} + lanes, sprints, name);
    SpellingsAdd(rows, {pi} + lanes + sprints, events, name);
    SpellingsAdd(rows, {pi} + lanes + sprints + events, groups, name);
    UnderOnePi(rows, pi);
  }

  ghost predicate WrotePis(pis: seq<PiTree>, rows: Rows, all: set<Key>, name: Naming) {
    multiset(Structures(pis) + Groups(pis)) == Spellings(rows, UnderPis(rows, all), name)
  }

  lemma TreesAppend(pis: seq<PiTree>, tree: PiTree)
    ensures multiset(Structures(pis + [tree]) + Groups(pis + [tree])) ==
      multiset(Structures(pis) + Groups(pis)) + multiset(Structure(tree) + GroupsOfLanes(tree.lanes))
  {
    assert (pis + [tree])[..|pis|] == pis;
  }

  lemma NoPiYet(rows: Rows, name: Naming)
    ensures WrotePis([], rows, {}, name)
  {
    assert UnderPis(rows, {}) == {};
  }

  lemma UnderPisAdd(rows: Rows, done: set<Key>, pi: Key, name: Naming)
    requires OneToOne(name) && pi !in done
    ensures Spellings(rows, UnderPis(rows, done + {pi}), name) ==
      Spellings(rows, UnderPis(rows, done), name) + Spellings(rows, UnderPis(rows, {pi}), name)
  {
    assert UnderPis(rows, done + {pi}) == UnderPis(rows, done) + UnderPis(rows, {pi});
    SpellingsAdd(rows, UnderPis(rows, done), UnderPis(rows, {pi}), name);
  }

  lemma OneMorePi(pis: seq<PiTree>, tree: PiTree, rows: Rows, done: set<Key>, pi: Key, name: Naming)
    requires OneToOne(name) && WrotePis(pis, rows, done, name) && pi !in done && WrotePi(tree, rows, pi, name)
    ensures WrotePis(pis + [tree], rows, done + {pi}, name)
  {
    TreesAppend(pis, tree);
    UnderPisAdd(rows, done, pi, name);
  }

  /** Each PI of the project with what is under it. */
  method WritePis(rows: Rows, home: New, name: Naming) returns (pis: seq<PiTree>)
    requires OneToOne(name) && Fields(rows)
    ensures WrotePis(pis, rows, Children(rows, Pi, home), name)
  {
    var all := Children(rows, Pi, home);
    var todo := all;
    pis := [];
    NoneDone(all);
    NoPiYet(rows, name);
    while todo != {}
      invariant todo <= all && WrotePis(pis, rows, all - todo, name)
      decreases |todo|
    {
      var pi :| pi in todo;
      var tree := WritePi(rows, pi, name);
      OneMorePi(pis, tree, rows, all - todo, pi, name);
      OneMoreDone(all, todo, pi);
      pis, todo := pis + [tree], todo - {pi};
    }
    NoneLeft(all);
  }

  // ---- the whole of it ----------------------------------------------------------------

  ghost function ProjectKeys(rows: Rows, home: New): (found: set<Key>)
    ensures found <= rows.Keys
  {
    set k | k in rows && InProject(rows, k, home)
  }

  lemma {:induction false} UnderPiWhen(rows: Rows, home: New, k: Key)
    requires Fields(rows) && k in rows && Parent(k.kind) != ToProject
    ensures InProject(rows, k, home) <==> k in UnderPis(rows, Children(rows, Pi, home))
    decreases k.kind == Group
  {
    assert FieldsFit(k.kind, rows[k]);
    if k.kind == Group {
      var lane := Key(Lane, rows[k].links[ToLane]);
      assert InProject(rows, k, home) == InProject(rows, lane, home);
      if lane in rows {
        UnderPiWhen(rows, home, lane);
      }
    }
  }

  lemma ProjectIs(rows: Rows, home: New)
    requires Fields(rows)
    ensures ProjectKeys(rows, home) ==
      UnderPis(rows, Children(rows, Pi, home)) + Children(rows, State, home) + Children(rows, Feature, home)
      + Children(rows, Story, home)
  {
    forall k | k in rows && Parent(k.kind) != ToProject
      ensures InProject(rows, k, home) <==> k in UnderPis(rows, Children(rows, Pi, home))
    {
      UnderPiWhen(rows, home, k);
    }
  }

  lemma CountedOnce<T>(s: seq<T>)
    requires forall x :: x in s ==> multiset(s)[x] <= 1
    ensures forall i, j :: 0 <= i < j < |s| ==> s[i] != s[j]
  {
    forall i, j | 0 <= i < j < |s| ensures s[i] != s[j] {
      assert s == s[..j] + [s[j]] + s[j + 1..];
      assert multiset(s) == multiset(s[..j]) + multiset([s[j]]) + multiset(s[j + 1..]);
      assert s[..j][i] == s[i] && s[i] in s[..j];
      assert multiset(s)[s[j]] <= 1;
    }
  }

  lemma SpellingsExport(p: Payload, rows: Rows, home: New, name: Naming)
    requires p.project == name(home) && multiset(Nodes(p)) == Spellings(rows, ProjectKeys(rows, home), name)
    ensures Exports(p, rows, home, name)
  {
    var nodes, spelled := Nodes(p), Spellings(rows, ProjectKeys(rows, home), name);
    forall k | InProject(rows, k, home) ensures Spelled(k, rows[k], name) in nodes {
      assert k in ProjectKeys(rows, home) && Spelled(k, rows[k], name) in spelled;
    }
    forall n | n in nodes ensures exists k :: InProject(rows, k, home) && n == Spelled(k, rows[k], name) {
      assert n in spelled;
      var k :| k in ProjectKeys(rows, home) && n == Spelled(k, rows[k], name);
    }
    CountedOnce(nodes);
  }

  /** The payload of a project: every row that is of it, once, spelled by the names of the rows it refers to. */
  method SerializeProject(rows: Rows, home: New, title: string, name: Naming) returns (p: Payload)
    requires OneToOne(name) && Fields(rows)
    ensures p.name == title && Exports(p, rows, home, name)
  {
    var features := Write(rows, Feature, home, name);
    var stories := Write(rows, Story, home, name);
    var states := Write(rows, State, home, name);
    var pis := WritePis(rows, home, name);
    p := Payload(name(home), title, states, features, stories, pis);
    PayloadIsWhole(p, rows, home, name);
    SpellingsExport(p, rows, home, name);
  }

  lemma PayloadIsWhole(p: Payload, rows: Rows, home: New, name: Naming)
    requires OneToOne(name) && Fields(rows)
    requires WrotePis(p.pis, rows, Children(rows, Pi, home), name)
    requires Wrote(p.states, rows, Children(rows, State, home), State, home, name)
    requires Wrote(p.features, rows, Children(rows, Feature, home), Feature, home, name)
    requires Wrote(p.stories, rows, Children(rows, Story, home), Story, home, name)
    ensures multiset(Nodes(p)) == Spellings(rows, ProjectKeys(rows, home), name)
  {
    var under, states := UnderPis(rows, Children(rows, Pi, home)), Children(rows, State, home);
    var features, stories := Children(rows, Feature, home), Children(rows, Story, home);
    NodesCount(p);
    WroteFlat(p.states, rows, states, State, home, name);
    WroteFlat(p.features, rows, features, Feature, home, name);
    WroteFlat(p.stories, rows, stories, Story, home, name);
    ProjectAdds(rows, home, name);
  }

  lemma WroteFlat(raws: seq<Raw>, rows: Rows, all: set<Key>, kind: Kind, home: New, name: Naming)
    requires Wrote(raws, rows, all, kind, home, name) && Parent(kind) == ToProject
    ensures multiset(NodesOf(kind, raws, None)) == Spellings(rows, all, name)
  {}

  lemma NodesCount(p: Payload)
    ensures multiset(Nodes(p)) == multiset(Structures(p.pis) + Groups(p.pis))
      + multiset(States(p)) + multiset(Features(p)) + multiset(Stories(p))
  {}

  lemma ProjectAdds(rows: Rows, home: New, name: Naming)
    requires OneToOne(name) && Fields(rows)
    ensures Spellings(rows, ProjectKeys(rows, home), name) ==
      Spellings(rows, UnderPis(rows, Children(rows, Pi, home)), name)
      + Spellings(rows, Children(rows, State, home), name)
      + Spellings(rows, Children(rows, Feature, home), name)
      + Spellings(rows, Children(rows, Story, home), name)
  {
    var under, states := UnderPis(rows, Children(rows, Pi, home)), Children(rows, State, home);
    var features, stories := Children(rows, Feature, home), Children(rows, Story, home);
    ProjectIs(rows, home);
    SpellingsAdd(rows, under, states, name);
    SpellingsAdd(rows, under + states, features, name);
    SpellingsAdd(rows, under + states + features, stories, name);
  }
}
