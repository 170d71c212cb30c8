/**
 * Dated working-pattern versions of a team member (backend/app/routes/team_members.py, backend/app/models/team.py,
 * resolve_version in backend/app/services/team_capacity.py).
 *
 * A version holds from its date until the next one's; the earliest also holds for every date before it.
 */
module WorkingPatterns {
  import opened Wrappers
  import opened Holidays
  import opened Sorting

  const MAX_VERSIONS := 50

  type Stamp = nat

  datatype Pattern = Pattern(worked: set<Slot>, hoursPerDay: real, focus: real, note: string)

  datatype Version = Version(id: Id, since: Day, pattern: Pattern, modified: Stamp)

  /** The If-Match header: absent, the wildcard, or the tags it quotes. */
  datatype IfMatch = Absent | Star | Tags(tags: set<Stamp>)

  datatype Error = NotFound | PreconditionRequired | Stale | LimitReached | DateTaken | EarliestNotDeletable

  // ---- the version in force -----------------------------------------------------------

  function Elements(vs: seq<Version>): set<Version> {
    set v | v in vs
  }

  ghost predicate Begun(s: set<Version>, on: Day) {
    exists u :: u in s && u.since <= on
  }

  /** The latest version begun by then, or, before any has, the earliest. */
  ghost predicate Governs(s: set<Version>, v: Version, on: Day) {
    v in s &&
    if Begun(s, on) then v.since <= on && forall u :: u in s && u.since <= on ==> u.since <= v.since
    else forall u :: u in s ==> v.since <= u.since
  }

  ghost predicate DistinctDates(s: set<Version>) {
    forall u, v :: u in s && v in s && u.since == v.since ==> u == v
  }

  lemma {:induction false} SomeGoverns(s: set<Version>, on: Day) returns (v: Version)
    requires s != {}
    ensures Governs(s, v, on)
    decreases |s|
  {
    var x :| x in s;
    if s == {x} {
      v := x;
    } else {
      var rest := s - {x};
      assert s == rest + {x};
      var y := SomeGoverns(rest, on);
      if x.since <= on {
        v := if y.since <= on && x.since <= y.since then y else x;
      } else {
        v := if y.since <= on || y.since <= x.since then y else x;
      }
      if Begun(rest, on) {
        var u :| u in rest && u.since <= on;
        assert u in s;
      }
    }
  }

  /** Every date resolves to exactly one version. */
  lemma ExactlyOneGoverns(s: set<Version>, on: Day) returns (v: Version)
    requires s != {} && DistinctDates(s)
    ensures Governs(s, v, on) && forall u :: Governs(s, u, on) ==> u == v
  {
    v := SomeGoverns(s, on);
  }

  predicate Ascending(vs: seq<Version>) {
    forall i, j :: 0 <= i < j < |vs| ==> vs[i].since <= vs[j].since
  }

  /** Walks the versions in order of date until one starts after the day asked about. */
  method ResolveVersion(versions: seq<Version>, on: Day) returns (chosen: Version)
    requires versions != [] && Ascending(versions)
    ensures Governs(Elements(versions), chosen, on)
  {
    chosen := versions[0];
    for i := 0 to |versions|
      invariant chosen in versions
      invariant forall j :: 0 <= j < i ==> versions[j].since <= on && versions[j].since <= chosen.since
      invariant i > 0 ==> chosen.since <= on
      invariant i == 0 ==> chosen == versions[0]
    {
      if versions[i].since > on {
        assert forall j :: i <= j < |versions| ==> on < versions[j].since;
        if i > 0 {
          assert chosen in Elements(versions);
        }
        return;
      }
      chosen := versions[i];
    }
    assert chosen in Elements(versions);
  }

  /** The version shown for a date, whatever order the rows come in. */
  method EffectiveVersion(versions: seq<Version>, on: Day) returns (v: Version)
    requires versions != []
    ensures Governs(Elements(versions), v, on)
  {
    var le := (a: Version, b: Version) => a.since <= b.since;
    var ordered := Sort(versions, le);
    SortIsSorted(versions, le);
    SortKeeps(versions, le);
    assert Elements(ordered) == Elements(versions) by {
      forall v ensures v in ordered <==> v in versions {
        assert v in multiset(ordered) <==> v in multiset(versions);
      }
    }
    forall i, j | 0 <= i < j < |ordered| ensures ordered[i].since <= ordered[j].since {
      assert le(ordered[i], ordered[j]);
    }
    v := ResolveVersion(ordered, on);
  }

  // ---- how the answer moves -----------------------------------------------------------

  /** The version's own interval: from its date, or from ever if it is the earliest, until the next date. */
  ghost predicate Interval(others: set<Version>, v: Version, on: Day) {
    && (v.since <= on || forall u :: u in others ==> v.since < u.since)
    && (forall u :: u in others && v.since < u.since ==> on < u.since)
  }

  /** With one more version, it governs its interval and every other date is answered as before. */
  lemma OneMoreVersion(others: set<Version>, v: Version, on: Day)
    requires others != {} && v !in others && DistinctDates(others + {v})
    ensures Governs(others + {v}, v, on) <==> Interval(others, v, on)
    ensures forall u :: u != v ==>
      (Governs(others + {v}, u, on) <==> Governs(others, u, on) && !Interval(others, v, on))
  {
    var all := others + {v};
    var x := SomeGoverns(others, on);
    if Begun(others, on) {
      var u :| u in others && u.since <= on;
      assert u in all;
    }
    if v.since <= on {
      assert Begun(all, on);
    }
  }

  /** The version whose dates a deleted one's join: the one in force the day before it began. */
  lemma PredecessorTakesOver(others: set<Version>, v: Version, on: Day)
    requires v !in others && DistinctDates(others + {v})
    requires exists u :: u in others && u.since < v.since
    ensures forall u :: Governs(others, u, on) <==>
      u != v && (Governs(others + {v}, u, on)
                 || (Governs(others + {v}, v, on) && Governs(others + {v}, u, v.since - 1)))
  {
    OneMoreVersion(others, v, on);
    OneMoreVersion(others, v, v.since - 1);
    var before :| before in others && before.since < v.since;
    if Interval(others, v, on) {
      assert v.since <= on;
      forall u ensures Governs(others, u, on) <==> Governs(others, u, v.since - 1) {
        SameBefore(others, v, before, u, on);
      }
    }
  }

  /** The version that takes over a removed one's dates: the one before it, or, from the earliest, the next. */
  ghost predicate Heir(others: set<Version>, v: Version, u: Version) {
    if exists w :: w in others && w.since < v.since then Governs(others + {v}, u, v.since - 1)
    else u in others && forall w :: w in others ==> u.since <= w.since
  }

  lemma HeirTakesOver(others: set<Version>, v: Version, on: Day)
    requires v !in others && DistinctDates(others + {v})
    ensures forall u :: u in others ==>
      (Governs(others, u, on) <==>
         Governs(others + {v}, u, on) || (Governs(others + {v}, v, on) && Heir(others, v, u)))
  {
    if exists w :: w in others && w.since < v.since {
      PredecessorTakesOver(others, v, on);
    } else if others != {} {
      OneMoreVersion(others, v, on);
      var next := SomeGoverns(others, v.since);
      assert forall w :: w in others ==> v.since < w.since;
      if Interval(others, v, on) {
        assert !Begun(others, on);
      }
    }
  }

  lemma SameBefore(others: set<Version>, v: Version, before: Version, u: Version, on: Day)
    requires before in others && before.since < v.since <= on
    requires forall w :: w in others ==> w.since != v.since
    requires forall w :: w in others && v.since < w.since ==> on < w.since
    ensures Governs(others, u, on) <==> Governs(others, u, v.since - 1)
  {
    assert Begun(others, on) && Begun(others, v.since - 1);
    forall w | w in others ensures w.since <= on <==> w.since <= v.since - 1 {}
  }

  // ---- requests -----------------------------------------------------------------------

  datatype Patch = Patch(worked: Option<set<Slot>>, hoursPerDay: Option<real>, focus: Option<real>,
                         note: Option<string>, since: Option<Day>)

  function Applied(p: Pattern, patch: Patch): Pattern {
    Pattern(patch.worked.GetOr(p.worked), patch.hoursPerDay.GetOr(p.hoursPerDay), patch.focus.GetOr(p.focus),
            patch.note.GetOr(p.note))
  }

  /** The first row with this property, or the length. */
  function IndexOf(vs: seq<Version>, p: Version -> bool): (i: nat)
    ensures i <= |vs| && (i < |vs| ==> p(vs[i]))
    ensures forall j :: 0 <= j < i ==> !p(vs[j])
  {
    if vs == [] || p(vs[0]) then 0 else 1 + IndexOf(vs[1..], p)
  }

  function OnDate(vs: seq<Version>, since: Day): nat {
    IndexOf(vs, (v: Version) => v.since == since)
  }

  function WithId(vs: seq<Version>, id: Id): nat {
    IndexOf(vs, (v: Version) => v.id == id)
  }

  predicate Earliest(vs: seq<Version>, v: Version) {
    forall u :: u in vs ==> v.since <= u.since
  }

  type Reply = Result<seq<Version>, Error>

  /** A new version, or, on a date that has one, its replacement under that one's tag. */
  function Post(vs: seq<Version>, since: Day, pattern: Pattern, ifMatch: IfMatch, id: Id, now: Stamp): Reply {
    var i := OnDate(vs, since);
    if ifMatch.Star? then Err(PreconditionRequired)
    else if i < |vs| then
      if ifMatch.Absent? then Err(PreconditionRequired)
      else if vs[i].modified !in ifMatch.tags then Err(Stale)
      else Ok(vs[i := vs[i].(pattern := pattern, modified := now)])
    else if |vs| >= MAX_VERSIONS then Err(LimitReached)
    else Ok(vs + [Version(id, since, pattern, now)])
  }

  function Edit(vs: seq<Version>, id: Id, patch: Patch, ifMatch: IfMatch, now: Stamp): Reply {
    var i := WithId(vs, id);
    if !ifMatch.Tags? then Err(PreconditionRequired)
    else if i == |vs| then Err(NotFound)
    else if vs[i].modified !in ifMatch.tags then Err(Stale)
    else
      var since := patch.since.GetOr(vs[i].since);
      if exists j :: 0 <= j < |vs| && j != i && vs[j].since == since then Err(DateTaken)
      else Ok(vs[i := vs[i].(since := since, pattern := Applied(vs[i].pattern, patch), modified := now)])
  }

  function Delete(vs: seq<Version>, id: Id, ifMatch: IfMatch): Reply {
    var i := WithId(vs, id);
    if !ifMatch.Tags? then Err(PreconditionRequired)
    else if i == |vs| then Err(NotFound)
    else if vs[i].modified !in ifMatch.tags then Err(Stale)
    else if Earliest(vs, vs[i]) then Err(EarliestNotDeletable)
    else Ok(vs[..i] + vs[i + 1..])
  }

  datatype Request =
    | PostVersion(since: Day, pattern: Pattern, ifMatch: IfMatch, id: Id)
    | EditVersion(id: Id, patch: Patch, ifMatch: IfMatch)
    | DeleteVersion(id: Id, ifMatch: IfMatch)

  function Perform(vs: seq<Version>, r: Request, now: Stamp): Reply {
    match r
    case PostVersion(since, pattern, ifMatch, id) => Post(vs, since, pattern, ifMatch, id, now)
    case EditVersion(id, patch, ifMatch) => Edit(vs, id, patch, ifMatch, now)
    case DeleteVersion(id, ifMatch) => Delete(vs, id, ifMatch)
  }

  datatype Event = Event(request: Request, at: Stamp)

  function Next(vs: seq<Version>, e: Event): seq<Version> {
    var reply := Perform(vs, e.request, e.at);
    if reply.Ok? then reply.value else vs
  }

  function Run(vs: seq<Version>, es: seq<Event>): seq<Version>
    decreases |es|
  {
    if es == [] then vs else Run(Next(vs, es[0]), es[1..])
  }

  // ---- every run ----------------------------------------------------------------------

  /** At least one version, no two on one date or under one id, and not too many. */
  ghost predicate Valid(vs: seq<Version>) {
    && 1 <= |vs| <= MAX_VERSIONS
    && (forall i, j :: 0 <= i < j < |vs| ==> vs[i].since != vs[j].since && vs[i].id != vs[j].id)
  }

  /** Ids of new versions have not been used in this history. */
  ghost predicate FreshId(vs: seq<Version>, r: Request) {
    r.PostVersion? ==> forall v :: v in vs ==> v.id != r.id
  }

  ghost predicate Happens(vs: seq<Version>, es: seq<Event>)
    decreases |es|
  {
    es == [] || (FreshId(vs, es[0].request) && Happens(Next(vs, es[0]), es[1..]))
  }

  /** One more request is a step from where the requests before it have come to. */
  lemma {:induction false} RunExtends(vs: seq<Version>, es: seq<Event>, e: Event)
    ensures Run(vs, es + [e]) == Next(Run(vs, es), e)
    ensures Happens(vs, es + [e]) <==> Happens(vs, es) && FreshId(Run(vs, es), e.request)
    decreases |es|
  {
    if es == [] {
      assert [] + [e] == [e];
    } else {
      assert (es + [e])[1..] == es[1..] + [e];
      RunExtends(Next(vs, es[0]), es[1..], e);
    }
  }

  lemma ValidIsDistinct(vs: seq<Version>)
    requires Valid(vs)
    ensures DistinctDates(Elements(vs)) && Elements(vs) != {}
  {
    assert vs[0] in Elements(vs);
  }

  lemma StepKeepsValid(vs: seq<Version>, e: Event)
    requires Valid(vs) && FreshId(vs, e.request)
    ensures Valid(Next(vs, e))
  {
    if e.request.DeleteVersion? && Perform(vs, e.request, e.at).Ok? {
      var i := WithId(vs, e.request.id);
      assert exists u :: u in vs && u.since < vs[i].since;
    }
  }

  /** Whatever is posted, edited, moved or deleted, every date resolves to exactly one version. */
  lemma {:induction false} EveryRunResolves(first: Version, es: seq<Event>, on: Day) returns (v: Version)
    requires Happens([first], es)
    ensures Valid(Run([first], es))
    ensures Governs(Elements(Run([first], es)), v, on)
    ensures forall u :: Governs(Elements(Run([first], es)), u, on) ==> u == v
  {
    RunKeepsValid([first], es);
    ValidIsDistinct(Run([first], es));
    v := ExactlyOneGoverns(Elements(Run([first], es)), on);
  }

  lemma {:induction false} RunKeepsValid(vs: seq<Version>, es: seq<Event>)
    requires Valid(vs) && Happens(vs, es)
    ensures Valid(Run(vs, es))
    decreases |es|
  {
    if es != [] {
      StepKeepsValid(vs, es[0]);
      RunKeepsValid(Next(vs, es[0]), es[1..]);
    }
  }

  /** Adding a version changes the answer on its own interval only. */
  lemma PostingMoves(vs: seq<Version>, since: Day, pattern: Pattern, ifMatch: IfMatch, id: Id, now: Stamp, on: Day)
    requires Valid(vs) && Post(vs, since, pattern, ifMatch, id, now).Ok?
    requires forall v :: v in vs ==> v.since != since
    ensures
      var after := Elements(Post(vs, since, pattern, ifMatch, id, now).value);
      var v := Version(id, since, pattern, now);
      && (Governs(after, v, on) <==> Interval(Elements(vs), v, on))
      && (forall u :: u != v ==> (Governs(after, u, on) <==>
        Governs(Elements(vs), u, on) && !Interval(Elements(vs), v, on)))
  {
    ValidIsDistinct(vs);
    var v := Version(id, since, pattern, now);
    assert Elements(vs + [v]) == Elements(vs) + {v};
    OneMoreVersion(Elements(vs), v, on);
  }

  /** Deleting a version changes the answer on its dates only, where its predecessor takes over. */
  lemma DeletingMoves(vs: seq<Version>, id: Id, ifMatch: IfMatch, on: Day)
    requires Valid(vs) && Delete(vs, id, ifMatch).Ok?
    ensures
      var before, after := Elements(vs), Elements(Delete(vs, id, ifMatch).value);
      var gone := vs[WithId(vs, id)];
      && after == before - {gone}
      && (forall u :: Governs(after, u, on) <==>
            u != gone && (Governs(before, u, on) || (Governs(before, gone, on) && Governs(before, u, gone.since - 1))))
      && (Governs(before, gone, on) ==> gone.since <= on)
  {
    ValidIsDistinct(vs);
    var i := WithId(vs, id);
    var gone := vs[i];
    var others := Elements(vs) - {gone};
    assert Elements(vs[..i] + vs[i + 1..]) == others;
    assert others + {gone} == Elements(vs);
    var earlier :| earlier in vs && earlier.since < gone.since;
    assert earlier in others;
    PredecessorTakesOver(others, gone, on);
    OneMoreVersion(others, gone, on);
  }

  /**
   * Editing a version, its date included, changes the answer on the dates it leaves, where its heir takes over, and on
   * the interval it comes to, and on no other date.
   */
  lemma MovingMoves(vs: seq<Version>, id: Id, patch: Patch, ifMatch: IfMatch, now: Stamp, on: Day)
    requires Valid(vs) && Edit(vs, id, patch, ifMatch, now).Ok?
    ensures
      var i := WithId(vs, id);
      var before, after := Elements(vs), Elements(Edit(vs, id, patch, ifMatch, now).value);
      var was, moved := vs[i], Edit(vs, id, patch, ifMatch, now).value[i];
      var others := before - {was};
      && after == others + {moved}
      && (Governs(after, moved, on) <==> Interval(others, moved, on))
      && (forall u :: u in others ==>
            (Governs(after, u, on) <==>
               !Interval(others, moved, on)
               && (Governs(before, u, on) || (Governs(before, was, on) && Heir(others, was, u)))))
  {
    ValidIsDistinct(vs);
    var i := WithId(vs, id);
    var edited := Edit(vs, id, patch, ifMatch, now).value;
    var was, moved := vs[i], edited[i];
    var others := Elements(vs) - {was};
    ElementsEdited(vs, i, moved);
    assert others + {was} == Elements(vs);
    HeirTakesOver(others, was, on);
    if others != {} {
      OneMoreVersion(others, moved, on);
    }
  }

  lemma ElementsEdited(vs: seq<Version>, i: nat, moved: Version)
    requires Valid(vs) && i < |vs| && moved.id == vs[i].id
    requires forall j :: 0 <= j < |vs| && j != i ==> vs[j].since != moved.since
    ensures Elements(vs[i := moved]) == Elements(vs) - {vs[i]} + {moved}
    ensures moved !in Elements(vs) - {vs[i]} && DistinctDates(Elements(vs) - {vs[i]} + {moved})
  {
    var after := vs[i := moved];
    forall v | v in Elements(vs) - {vs[i]} + {moved} ensures v in after {
      if v == moved {
        assert after[i] == moved;
      } else {
        var j :| 0 <= j < |vs| && vs[j] == v;
        assert after[j] == v;
      }
    }
    forall v | v in after ensures v == moved || (v in vs && v != vs[i]) {
      var j :| 0 <= j < |after| && after[j] == v;
    }
  }

  lemma {:induction false} IndexIs(vs: seq<Version>, p: Version -> bool, i: nat)
    requires i < |vs| && p(vs[i]) && forall j :: 0 <= j < |vs| && j != i ==> !p(vs[j])
    ensures IndexOf(vs, p) == i
  {}

  // ---- what each request comes to -----------------------------------------------------

  /** The one version on its date, and the one under its id. */
  lemma VersionIsFound(vs: seq<Version>, v: Version)
    requires Valid(vs) && v in vs
    ensures OnDate(vs, v.since) == WithId(vs, v.id) < |vs| && vs[OnDate(vs, v.since)] == v
  {
    var i :| 0 <= i < |vs| && vs[i] == v;
    IndexIs(vs, (u: Version) => u.since == v.since, i);
    IndexIs(vs, (u: Version) => u.id == v.id, i);
  }

  /** Posting on a date that has a version replaces its pattern, under its tag; the version keeps its id. */
  lemma PostReplaces(vs: seq<Version>, v: Version, pattern: Pattern, ifMatch: IfMatch, id: Id, now: Stamp)
    requires Valid(vs) && v in vs
    ensures
      var reply := Post(vs, v.since, pattern, ifMatch, id, now);
      && (reply == Err(PreconditionRequired) <==> !ifMatch.Tags?)
      && (reply == Err(Stale) <==> ifMatch.Tags? && v.modified !in ifMatch.tags)
      && (reply.Ok? <==> ifMatch.Tags? && v.modified in ifMatch.tags)
      && (reply.Ok? ==> Elements(reply.value) == Elements(vs) - {v} + {Version(v.id, v.since, pattern, now)})
  {
    VersionIsFound(vs, v);
    if Post(vs, v.since, pattern, ifMatch, id, now).Ok? {
      ElementsEdited(vs, OnDate(vs, v.since), Version(v.id, v.since, pattern, now));
    }
  }

  /** Posting on a free date adds a version, up to fifty of them. */
  lemma PostAdds(vs: seq<Version>, since: Day, pattern: Pattern, ifMatch: IfMatch, id: Id, now: Stamp)
    requires Valid(vs) && forall v :: v in vs ==> v.since != since
    ensures
      var reply := Post(vs, since, pattern, ifMatch, id, now);
      && (reply == Err(PreconditionRequired) <==> ifMatch.Star?)
      && (reply == Err(LimitReached) <==> !ifMatch.Star? && |vs| >= 50)
      && (reply.Ok? <==> !ifMatch.Star? && |vs| < 50)
      && (reply.Ok? ==> Elements(reply.value) == Elements(vs) + {Version(id, since, pattern, now)})
  {}

  /** An edit changes what the patch names and nothing else of the version, and no other version. */
  lemma EditChanges(vs: seq<Version>, v: Version, patch: Patch, ifMatch: IfMatch, now: Stamp)
    requires Valid(vs) && v in vs
    ensures
      var reply := Edit(vs, v.id, patch, ifMatch, now);
      var known := ifMatch.Tags? && v.modified in ifMatch.tags;
      var taken := patch.since.Some? && exists u :: u in vs && u != v && u.since == patch.since.value;
      && (reply == Err(PreconditionRequired) <==> !ifMatch.Tags?)
      && (reply == Err(Stale) <==> ifMatch.Tags? && !known)
      && (reply == Err(DateTaken) <==> known && taken)
      && (reply.Ok? <==> known && !taken)
      && (reply.Ok? ==> Elements(reply.value) == Elements(vs) - {v} + {Patched(v, patch, now)})
  {
    VersionIsFound(vs, v);
    var i := WithId(vs, v.id);
    if u :| patch.since.Some? && u in vs && u != v && u.since == patch.since.value {
      var j :| 0 <= j < |vs| && vs[j] == u;
      assert j != i;
    }
    if Edit(vs, v.id, patch, ifMatch, now).Ok? {
      ElementsEdited(vs, i, Patched(v, patch, now));
    }
  }

  /** The version with each field as the patch has it, or as it was. */
  ghost function Patched(v: Version, patch: Patch, now: Stamp): Version {
    Version(
      v.id, if patch.since.Some? then patch.since.value else v.since,
      Pattern(
        if patch.worked.Some? then patch.worked.value else v.pattern.worked,
        if patch.hoursPerDay.Some? then patch.hoursPerDay.value else v.pattern.hoursPerDay,
        if patch.focus.Some? then patch.focus.value else v.pattern.focus,
        if patch.note.Some? then patch.note.value else v.pattern.note),
      now)
  }

  /** A deletion takes the version, under its tag, unless none began before it. */
  lemma DeleteTakes(vs: seq<Version>, v: Version, ifMatch: IfMatch)
    requires Valid(vs) && v in vs
    ensures
      var reply := Delete(vs, v.id, ifMatch);
      var known := ifMatch.Tags? && v.modified in ifMatch.tags;
      var later := exists u :: u in vs && u.since < v.since;
      && (reply == Err(PreconditionRequired) <==> !ifMatch.Tags?)
      && (reply == Err(Stale) <==> ifMatch.Tags? && !known)
      && (reply == Err(EarliestNotDeletable) <==> known && !later)
      && (reply.Ok? <==> known && later)
      && (reply.Ok? ==> Elements(reply.value) == Elements(vs) - {v} && |reply.value| == |vs| - 1)
  {
    VersionIsFound(vs, v);
    if Delete(vs, v.id, ifMatch).Ok? {
      ElementsWithout(vs, WithId(vs, v.id));
    }
  }

  lemma ElementsWithout(vs: seq<Version>, i: nat)
    requires Valid(vs) && i < |vs|
    ensures Elements(vs[..i] + vs[i + 1..]) == Elements(vs) - {vs[i]}
  {
    var left := vs[..i] + vs[i + 1..];
    forall v | v in Elements(vs) - {vs[i]} ensures v in left {
      var j :| 0 <= j < |vs| && vs[j] == v;
      assert left[if j < i then j else j - 1] == v;
    }
  }

  /** An id no version has is not found. */
  lemma UnknownIsNotFound(vs: seq<Version>, id: Id, patch: Patch, ifMatch: IfMatch, now: Stamp)
    requires forall v :: v in vs ==> v.id != id
    ensures Edit(vs, id, patch, ifMatch, now) == Err(if ifMatch.Tags? then NotFound else PreconditionRequired)
    ensures Delete(vs, id, ifMatch) == Err(if ifMatch.Tags? then NotFound else PreconditionRequired)
  {}

  // ---- no lost updates ----------------------------------------------------------------

  /** Of two writers who read the same version, the second to write an edit is told so. */
  lemma SecondWriterIsTold(
      vs: seq<Version>, id: Id, mine: Patch, theirs: Patch, tags: set<Stamp>, now: Stamp, later: Stamp)
    requires Valid(vs) && Edit(vs, id, mine, Tags(tags), now).Ok? && now !in tags
    ensures Edit(Edit(vs, id, mine, Tags(tags), now).value, id, theirs, Tags(tags), later) == Err(Stale)
    ensures Delete(Edit(vs, id, mine, Tags(tags), now).value, id, Tags(tags)) == Err(Stale)
    ensures
      var i := WithId(vs, id);
      forall pattern :: Post(Edit(vs, id, mine, Tags(tags), now).value, mine.since.GetOr(vs[i].since), pattern,
        Tags(tags), id, later)
                        == Err(Stale)
  {
    var i := WithId(vs, id);
    var after := Edit(vs, id, mine, Tags(tags), now).value;
    IndexIs(after, (v: Version) => v.id == id, i);
    IndexIs(after, (v: Version) => v.since == mine.since.GetOr(vs[i].since), i);
  }

  // ---- the member's collection --------------------------------------------------------

  class Member {
    var versions: seq<Version>

    /** A member comes with a first version, dated by the request, the start of membership, or today. */
    constructor (id: Id, since: Option<Day>, activeFrom: Option<Day>, today: Day, pattern: Pattern, now: Stamp)
      ensures Valid(versions)
      ensures versions == [Version(id, since.GetOr(activeFrom.GetOr(today)), pattern, now)]
    {
      versions := [Version(id, since.GetOr(activeFrom.GetOr(today)), pattern, now)];
    }

    method CreatePatternVersion(since: Day, pattern: Pattern, ifMatch: IfMatch, id: Id, now: Stamp)
      returns (failure: Option<Error>)
      requires Valid(versions) && FreshId(versions, PostVersion(since, pattern, ifMatch, id))
      modifies this
      ensures Valid(versions)
      ensures Answered(old(versions), Post(old(versions), since, pattern, ifMatch, id, now), versions, failure)
      ensures versions == Next(old(versions), Event(PostVersion(since, pattern, ifMatch, id), now))
    {
      StepKeepsValid(versions, Event(PostVersion(since, pattern, ifMatch, id), now));
      if ifMatch.Star? {
        return Some(PreconditionRequired);
      }
      var i := Find(versions, (v: Version) => v.since == since);
      if i < |versions| {
        if ifMatch.Absent? {
          return Some(PreconditionRequired);
        }
        if versions[i].modified !in ifMatch.tags {
          return Some(Stale);
        }
        versions := versions[i := versions[i].(pattern := pattern, modified := now)];
      } else {
        if |versions| >= MAX_VERSIONS {
          return Some(LimitReached);
        }
        versions := versions + [Version(id, since, pattern, now)];
      }
      failure := None;
    }

    /** A date that another version has is refused when the session is written, and nothing is kept of the edit. */
    method UpdatePatternVersion(id: Id, patch: Patch, ifMatch: IfMatch, now: Stamp) returns (failure: Option<Error>)
      requires Valid(versions)
      modifies this
      ensures Valid(versions)
      ensures Answered(old(versions), Edit(old(versions), id, patch, ifMatch, now), versions, failure)
      ensures versions == Next(old(versions), Event(EditVersion(id, patch, ifMatch), now))
    {
      StepKeepsValid(versions, Event(EditVersion(id, patch, ifMatch), now));
      if !ifMatch.Tags? {
        return Some(PreconditionRequired);
      }
      var i := Find(versions, (v: Version) => v.id == id);
      if i == |versions| {
        return Some(NotFound);
      }
      if versions[i].modified !in ifMatch.tags {
        return Some(Stale);
      }
      var row := versions[i].(pattern := Applied(versions[i].pattern, patch));
      if patch.since.Some? {
        row := row.(since := patch.since.value);
      }
      row := row.(modified := now);
      if exists j :: 0 <= j < |versions| && j != i && versions[j].since == row.since {
        return Some(DateTaken);
      }
      versions := versions[i := row];
      failure := None;
    }

    method DeletePatternVersion(id: Id, ifMatch: IfMatch) returns (failure: Option<Error>)
      requires Valid(versions)
      modifies this
      ensures Valid(versions)
      ensures Answered(old(versions), Delete(old(versions), id, ifMatch), versions, failure)
      ensures versions == Next(old(versions), Event(DeleteVersion(id, ifMatch), 0))
    {
      if !ifMatch.Tags? {
        return Some(PreconditionRequired);
      }
      var i := Find(versions, (v: Version) => v.id == id);
      if i == |versions| {
        return Some(NotFound);
      }
      if versions[i].modified !in ifMatch.tags {
        return Some(Stale);
      }
      var earliest := FindEarliest(versions);
      if earliest == i {
        return Some(EarliestNotDeletable);
      }
      StepKeepsValid(versions, Event(DeleteVersion(id, ifMatch), 0));
      versions := versions[..i] + versions[i + 1..];
      failure := None;
    }
  }

  ghost predicate Answered(before: seq<Version>, reply: Reply, after: seq<Version>, failure: Option<Error>) {
    match reply
    case Ok(written) => failure == None && after == written
    case Err(e) => failure == Some(e) && after == before
  }

  method Find(vs: seq<Version>, p: Version -> bool) returns (i: nat)
    ensures i == IndexOf(vs, p)
  {
    i := 0;
    while i < |vs| && !p(vs[i])
      invariant i <= |vs|
      invariant forall j :: 0 <= j < i ==> !p(vs[j])
    {
      i := i + 1;
    }
    FirstIndexIs(vs, p, i);
  }

  lemma {:induction false} FirstIndexIs(vs: seq<Version>, p: Version -> bool, i: nat)
    requires i <= |vs| && (i < |vs| ==> p(vs[i])) && forall j :: 0 <= j < i ==> !p(vs[j])
    ensures IndexOf(vs, p) == i
  {}

  method FindEarliest(vs: seq<Version>) returns (e: nat)
    requires Valid(vs)
    ensures e < |vs| && Earliest(vs, vs[e]) && forall j :: 0 <= j < |vs| && j != e ==> !Earliest(vs, vs[j])
  {
    e := 0;
    for i := 1 to |vs|
      invariant e < i && forall j :: 0 <= j < i ==> vs[e].since <= vs[j].since
    {
      if vs[i].since < vs[e].since {
        e := i;
      }
    }
    forall j | 0 <= j < |vs| && j != e ensures !Earliest(vs, vs[j]) {
      assert vs[e] in vs && vs[e].since < vs[j].since;
    }
  }
}
