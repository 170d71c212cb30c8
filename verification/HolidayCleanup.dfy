/**
 * A team's holidays and the cleanup of absences they made redundant (backend/app/routes/team_holidays.py).
 */
module HolidayCleanup {
  import opened Wrappers
  import opened Holidays

  const MAX_CALENDARS_PER_TEAM := 20

  datatype Rule = Range | Recurring(on: Recurrence)

  datatype Absence = Absence(
    team: Id, member: Id, words: string, rule: Rule,
    start: Day, startHalf: Option<Half>, end: Option<Day>, endHalf: Option<Half>)

  datatype Switch = Switch(team: Id, calendar: Id)

  datatype Db = Db(
    teams: set<Id>, calendars: set<Id>, teamOf: map<Id, Id>,
    absences: map<Id, Absence>, entries: map<Id, Entry>, exceptions: set<Exception>, enabled: set<Switch>)

  datatype Error = NotFound | NotADuplicate | DayNotInHoliday | CalendarNotEnabled | LimitReached

  // ---- who is off when ----------------------------------------------------------------

  function BlockOf(a: Absence): Block {
    Block(a.start, a.startHalf.GetOr(Am), a.end.GetOr(a.start), a.endHalf.GetOr(Pm))
  }

  /** A recurring absence takes its halves of every occurrence. */
  predicate Absent(a: Absence, s: Slot) {
    match a.rule
    case Range => Covers(BlockOf(a), s)
    case Recurring(on) => s.half in on.halves && Recurs(on, a.start, a.end, s.day)
  }

  function SlotsOf(day: Day, halves: seq<Half>): seq<Slot> {
    seq(|halves|, i requires 0 <= i < |halves| => Slot(day, halves[i]))
  }

  lemma SlotsOfDay(day: Day, halves: seq<Half>)
    ensures forall s :: s in SlotsOf(day, halves) <==> s.day == day && s.half in halves
  {
    forall s: Slot | s.day == day && s.half in halves ensures s in SlotsOf(day, halves) {
      var i :| 0 <= i < |halves| && halves[i] == s.half;
      assert SlotsOf(day, halves)[i] == s;
    }
  }

  /** The half-days of an absence inside a window. */
  method AbsentHalfDays(a: Absence, from: Day, to: Day) returns (slots: seq<Slot>)
    ensures forall s :: s in slots <==> from <= s.day <= to && Absent(a, s)
  {
    if a.rule.Range? {
      slots := HalfDays(BlockOf(a), from, to);
      return;
    }
    var on := a.rule.on;
    var days := RecurringDays(on, a.start, a.end, from, to);
    slots := [];
    for i := 0 to |days|
      invariant forall s :: s in slots <==> s.day in days[..i] && s.half in on.halves
    {
      SlotsOfDay(days[i], on.halves);
      assert days[..i + 1] == days[..i] + [days[i]];
      slots := slots + SlotsOf(days[i], on.halves);
    }
    assert days[..|days|] == days;
  }

  /** Exceptions count for the members of the team that is asked about. */
  predicate Excepted(db: Db, team: Id, member: Id, entry: Id, day: Day) {
    member in db.teamOf && db.teamOf[member] == team && Exception(member, entry, day) in db.exceptions
  }

  predicate Gives(db: Db, team: Id, member: Id, s: Slot, e: Id)
    requires e in db.entries
  {
    && Switch(team, db.entries[e].calendar) in db.enabled
    && Covers(db.entries[e].block, s)
    && !Excepted(db, team, member, e, s.day)
  }

  /** Any one holiday without an exception is enough. */
  predicate OnHoliday(db: Db, team: Id, member: Id, s: Slot) {
    exists e :: e in db.entries && Gives(db, team, member, s, e)
  }

  predicate Away(db: Db, team: Id, member: Id, s: Slot) {
    exists a :: a in db.absences && Takes(db.absences[a], team, member, s)
  }

  predicate Takes(a: Absence, team: Id, member: Id, s: Slot) {
    a.team == team && a.member == member && Absent(a, s)
  }

  predicate Off(db: Db, team: Id, member: Id, s: Slot) {
    Away(db, team, member, s) || OnHoliday(db, team, member, s)
  }

  // ---- candidates ---------------------------------------------------------------------

  ghost predicate Redundant(db: Db, a: Absence) {
    && (exists s :: Covers(BlockOf(a), s))
    && (forall s :: Covers(BlockOf(a), s) ==> OnHoliday(db, a.team, a.member, s))
  }

  function KeyOf(a: Absence): Key {
    Key(Fold(a.words), BlockOf(a))
  }

  predicate InTeam(db: Db, team: Id, id: Id) {
    id in db.absences && db.absences[id].team == team && db.absences[id].rule == Range
  }

  /** The same dates and words are entered for another member too. */
  ghost predicate Shared(db: Db, team: Id, id: Id)
    requires InTeam(db, team, id)
  {
    exists other ::
      InTeam(db, team, other) && KeyOf(db.absences[other]) == KeyOf(db.absences[id])
      && db.absences[other].member != db.absences[id].member
  }

  ghost predicate Candidate(db: Db, team: Id, id: Id) {
    InTeam(db, team, id) && Shared(db, team, id) && Redundant(db, db.absences[id])
  }

  // ---- the same, from the stored fields alone -----------------------------------------

  /**
   * Without halves an absence runs from the morning of its first day to the evening of its last, which is the first
   * again if none is given; a recurring one takes its own halves of the days of its rule.
   */
  lemma TakesWhen(a: Absence, team: Id, member: Id, s: Slot)
    ensures Takes(a, team, member, s) <==>
      && a.team == team && a.member == member
      && match a.rule
         case Range =>
           && a.start <= s.day <= a.end.GetOr(a.start)
           && !(s == Slot(a.start, Am) && a.startHalf == Some(Pm))
           && !(s == Slot(a.end.GetOr(a.start), Pm) && a.endHalf == Some(Am)
                && (a.end.GetOr(a.start) == a.start ==> a.startHalf != Some(Pm)))
         case Recurring(on) => s.half in on.halves && Recurs(on, a.start, a.end, s.day)
  {}

  /** A holiday is given by an entry of a calendar that is on, unless the member of this very team works that day. */
  lemma OnHolidayWhen(db: Db, team: Id, member: Id, s: Slot)
    ensures OnHoliday(db, team, member, s) <==>
      exists e :: e in db.entries && Covers(db.entries[e].block, s)
        && Switch(team, db.entries[e].calendar) in db.enabled
        && (Exception(member, e, s.day) in db.exceptions ==> member !in db.teamOf || db.teamOf[member] != team)
  {
    if OnHoliday(db, team, member, s) {
      var e :| e in db.entries && Gives(db, team, member, s, e);
      assert e in db.entries && Covers(db.entries[e].block, s);
    }
    forall e | e in db.entries && Covers(db.entries[e].block, s)
      ensures Gives(db, team, member, s, e) <==>
        && Switch(team, db.entries[e].calendar) in db.enabled
        && (Exception(member, e, s.day) in db.exceptions ==> member !in db.teamOf || db.teamOf[member] != team)
    {}
  }

  /** Both are entered for a stretch of days in the same words, up to case and spacing, and for the same half-days. */
  ghost predicate SameEntered(a: Absence, b: Absence) {
    && a.rule == Range && b.rule == Range && a.team == b.team
    && Fold(a.words) == Fold(b.words)
    && a.start == b.start && a.end.GetOr(a.start) == b.end.GetOr(b.start)
    && (a.startHalf == Some(Pm) <==> b.startHalf == Some(Pm))
    && (a.endHalf == Some(Am) <==> b.endHalf == Some(Am))
  }

  /** What may be cleaned up: the same was entered for someone else too, and a holiday gives every half-day of it. */
  lemma CandidateWhen(db: Db, team: Id, id: Id)
    ensures Candidate(db, team, id) <==>
      && id in db.absences && db.absences[id].team == team
      && (exists other :: other in db.absences && SameEntered(db.absences[id], db.absences[other])
            && db.absences[other].member != db.absences[id].member)
      && (exists s :: Absent(db.absences[id], s))
      && (forall s :: Absent(db.absences[id], s) ==> OnHoliday(db, team, db.absences[id].member, s))
  {
    if id in db.absences && db.absences[id].rule == Range {
      var a := db.absences[id];
      forall s ensures Covers(BlockOf(a), s) <==> Absent(a, s) {}
      forall other | other in db.absences && InTeam(db, team, id)
        ensures (InTeam(db, team, other) && KeyOf(db.absences[other]) == KeyOf(a)) <==>
          SameEntered(a, db.absences[other])
      {
        SameKeyWhen(a, db.absences[other]);
      }
    }
  }

  lemma SameKeyWhen(a: Absence, b: Absence)
    requires a.rule == Range
    ensures (b.team == a.team && b.rule == Range && KeyOf(b) == KeyOf(a)) <==> SameEntered(a, b)
  {
    assert a.startHalf.GetOr(Am) == Pm <==> a.startHalf == Some(Pm);
    assert b.startHalf.GetOr(Am) == Pm <==> b.startHalf == Some(Pm);
    assert a.endHalf.GetOr(Pm) == Am <==> a.endHalf == Some(Am);
    assert b.endHalf.GetOr(Pm) == Am <==> b.endHalf == Some(Am);
  }

  // ---- finding them -------------------------------------------------------------------

  type Covering = map<Slot, set<Id>>

  function At(covering: Covering, s: Slot): set<Id> {
    if s in covering then covering[s] else {}
  }

  /** The enabled entries that touch the window, as the loader selects them. */
  function Touching(db: Db, team: Id, from: Day, to: Day): set<Id> {
    set e | e in db.entries && Switch(team, db.entries[e].calendar) in db.enabled
      && db.entries[e].block.start <= to && from <= db.entries[e].block.end
  }

  method AddEntry(covering: Covering, e: Id, block: Block) returns (after: Covering)
    ensures forall s :: At(after, s) == if Covers(block, s) then At(covering, s) + {e} else At(covering, s)
  {
    after := covering;
    var slots := HalfDays(block, block.start, block.end);
    for i := 0 to |slots|
      invariant forall s :: At(after, s) == if s in slots[..i] then At(covering, s) + {e} else At(covering, s)
    {
      assert slots[..i + 1] == slots[..i] + [slots[i]];
      after := after[slots[i] := At(after, slots[i]) + {e}];
    }
    assert slots[..|slots|] == slots;
  }

  method Cover(db: Db, chosen: set<Id>) returns (covering: Covering)
    requires chosen <= db.entries.Keys
    ensures forall s, e :: e in At(covering, s) <==> e in chosen && Covers(db.entries[e].block, s)
  {
    covering := map[];
    var todo := chosen;
    while todo != {}
      invariant todo <= chosen
      invariant forall s, e :: e in At(covering, s) <==> e in chosen - todo && Covers(db.entries[e].block, s)
      decreases |todo|
    {
      var e :| e in todo;
      assert chosen - (todo - {e}) == (chosen - todo) + {e};
      covering := AddEntry(covering, e, db.entries[e].block);
      todo := todo - {e};
    }
    assert chosen - todo == chosen;
  }

  /** The table lists, per half-day, the enabled entries of the window that cover it. */
  ghost predicate CoversWindow(db: Db, team: Id, from: Day, to: Day, covering: Covering) {
    forall s, e :: e in At(covering, s) <==> e in Touching(db, team, from, to) && Covers(db.entries[e].block, s)
  }

  /** A window that spans the absence loses none of the holidays on it. */
  lemma WindowLosesNothing(db: Db, team: Id, member: Id, from: Day, to: Day, covering: Covering, s: Slot)
    requires from <= s.day <= to
    requires CoversWindow(db, team, from, to, covering)
    ensures
      (exists e :: e in At(covering, s) && !Excepted(db, team, member, e, s.day)) <==> OnHoliday(db, team, member, s)
  {
    if OnHoliday(db, team, member, s) {
      var e :| e in db.entries && Gives(db, team, member, s, e);
      assert e in Touching(db, team, from, to);
    }
    if e :| e in At(covering, s) && !Excepted(db, team, member, e, s.day) {
      assert e in Touching(db, team, from, to) && Gives(db, team, member, s, e);
    }
  }

  method IsRedundant(db: Db, a: Absence, from: Day, to: Day, covering: Covering) returns (redundant: bool)
    requires from <= a.start && a.end.GetOr(a.start) <= to
    requires CoversWindow(db, a.team, from, to, covering)
    ensures redundant <==> Redundant(db, a)
  {
    var slots := HalfDays(BlockOf(a), a.start, a.end.GetOr(a.start));
    redundant := |slots| > 0
      && forall s :: s in slots ==> exists e :: e in At(covering, s) && !Excepted(db, a.team, a.member, e, s.day);
    forall s | Covers(BlockOf(a), s)
      ensures (exists e :: e in At(covering, s) && !Excepted(db, a.team, a.member, e, s.day))
        <==> OnHoliday(db, a.team, a.member, s)
    {
      WindowLosesNothing(db, a.team, a.member, from, to, covering, s);
    }
    if |slots| > 0 {
      assert slots[0] in slots;
    }
  }

  /** The window reaches from before the first of these absences to after the last. */
  ghost predicate Spans(db: Db, rows: set<Id>, from: Day, to: Day)
    requires rows <= db.absences.Keys
  {
    forall id :: id in rows ==> from <= db.absences[id].start && db.absences[id].end.GetOr(db.absences[id].start) <= to
  }

  method Span(db: Db, rows: set<Id>) returns (from: Day, to: Day)
    requires rows != {} && rows <= db.absences.Keys
    ensures Spans(db, rows, from, to)
  {
    var first :| first in rows;
    from, to := db.absences[first].start, db.absences[first].end.GetOr(db.absences[first].start);
    var todo := rows;
    while todo != {}
      invariant todo <= rows
      invariant forall id :: id in rows - todo ==>
        from <= db.absences[id].start && db.absences[id].end.GetOr(db.absences[id].start) <= to
      decreases |todo|
    {
      var id :| id in todo;
      var a := db.absences[id];
      from := if a.start < from then a.start else from;
      to := if to < a.end.GetOr(a.start) then a.end.GetOr(a.start) else to;
      todo := todo - {id};
    }
  }

  function RowsAt(groups: map<Key, set<Id>>, k: Key): set<Id> {
    if k in groups then groups[k] else {}
  }

  /** The rows with these dates and words. */
  ghost function Alike(db: Db, rows: set<Id>, k: Key): set<Id>
    requires rows <= db.absences.Keys
  {
    set id | id in rows && KeyOf(db.absences[id]) == k
  }

  lemma AlikeOneMore(db: Db, rows: set<Id>, id: Id, k: Key)
    requires rows <= db.absences.Keys && id in db.absences
    ensures Alike(db, rows + {id}, k) ==
      if KeyOf(db.absences[id]) == k then Alike(db, rows, k) + {id} else Alike(db, rows, k)
  {}

  /** The groups hold these rows, each under its own key. */
  ghost predicate Files(db: Db, groups: map<Key, set<Id>>, rows: set<Id>)
    requires rows <= db.absences.Keys
  {
    forall k :: RowsAt(groups, k) == Alike(db, rows, k)
  }

  lemma FilesOneMore(db: Db, groups: map<Key, set<Id>>, rows: set<Id>, id: Id)
    requires rows <= db.absences.Keys && Files(db, groups, rows) && id in db.absences
    ensures
      var k := KeyOf(db.absences[id]);
      Files(db, groups[k := RowsAt(groups, k) + {id}], rows + {id})
  {
    var k := KeyOf(db.absences[id]);
    var after := groups[k := RowsAt(groups, k) + {id}];
    forall l ensures RowsAt(after, l) == Alike(db, rows + {id}, l) {
      AlikeOneMore(db, rows, id, l);
      assert RowsAt(groups, l) == Alike(db, rows, l);
    }
  }

  method GroupByKey(db: Db, rows: set<Id>) returns (groups: map<Key, set<Id>>)
    requires rows <= db.absences.Keys
    ensures Files(db, groups, rows)
  {
    groups := map[];
    ghost var done: set<Id> := {};
    var todo := rows;
    while todo != {}
      invariant done !! todo && done + todo == rows
      invariant Files(db, groups, done)
      decreases |todo|
    {
      var id :| id in todo;
      var k := KeyOf(db.absences[id]);
      FilesOneMore(db, groups, done, id);
      groups := groups[k := RowsAt(groups, k) + {id}];
      todo, done := todo - {id}, done + {id};
    }
    assert done == rows;
  }

  method RedundantOf(db: Db, team: Id, rows: set<Id>, from: Day, to: Day, covering: Covering) returns (covered: set<Id>)
    requires rows <= db.absences.Keys
    requires Spans(db, rows, from, to) && forall id :: id in rows ==> InTeam(db, team, id)
    requires CoversWindow(db, team, from, to, covering)
    ensures forall id :: id in covered <==> id in rows && Redundant(db, db.absences[id])
  {
    covered := {};
    var todo := rows;
    while todo != {}
      invariant todo <= rows
      invariant forall id :: id in covered <==> id in rows - todo && Redundant(db, db.absences[id])
      decreases |todo|
    {
      var id :| id in todo;
      var redundant := IsRedundant(db, db.absences[id], from, to, covering);
      if redundant {
        covered := covered + {id};
      }
      todo := todo - {id};
    }
    assert rows - todo == rows;
  }

  /** Two people share a group exactly when each of its rows has another person's beside it. */
  lemma SharedWhen(db: Db, team: Id, rows: set<Id>, k: Key, id: Id)
    requires forall r :: r in rows <==> InTeam(db, team, r) && KeyOf(db.absences[r]) == k
    requires id in rows && rows <= db.absences.Keys
    ensures |set r | r in rows :: db.absences[r].member| >= 2 <==> Shared(db, team, id)
  {
    var members := set r | r in rows :: db.absences[r].member;
    var mine := db.absences[id].member;
    assert mine in members;
    if |members| >= 2 {
      assert members != {mine};
      var other :| other in members && other != mine;
      var r :| r in rows && db.absences[r].member == other;
    } else if Shared(db, team, id) {
      var r :| InTeam(db, team, r) && KeyOf(db.absences[r]) == k && db.absences[r].member != mine;
      assert r in rows && {mine, db.absences[r].member} <= members;
      assert |members| >= |{mine, db.absences[r].member}| by {
        SubsetIsSmaller({mine, db.absences[r].member}, members);
      }
    }
  }

  lemma SubsetIsSmaller<T>(a: set<T>, b: set<T>)
    requires a <= b
    ensures |a| <= |b|
  {
    assert b == a + (b - a);
  }

  lemma NoHolidaysNoCandidates(db: Db, team: Id, from: Day, to: Day, id: Id)
    requires Touching(db, team, from, to) == {}
    requires InTeam(db, team, id) && from <= db.absences[id].start
    requires db.absences[id].end.GetOr(db.absences[id].start) <= to
    ensures !Redundant(db, db.absences[id])
  {
    var a := db.absences[id];
    if Redundant(db, a) {
      var s :| Covers(BlockOf(a), s);
      HolidayTouches(db, team, a.member, from, to, s);
    }
  }

  lemma HolidayTouches(db: Db, team: Id, member: Id, from: Day, to: Day, s: Slot)
    requires from <= s.day <= to && OnHoliday(db, team, member, s)
    ensures Touching(db, team, from, to) != {}
  {
    var e :| e in db.entries && Gives(db, team, member, s, e);
    assert e in Touching(db, team, from, to);
  }

  ghost predicate AreCandidates(db: Db, team: Id, all: set<Id>) {
    all <= db.absences.Keys && forall id :: id in all <==> Candidate(db, team, id)
  }

  /** The rows of one group that may go: none unless two people share it. */
  method GroupCandidates(
      db: Db, team: Id, k: Key, rows: set<Id>, from: Day, to: Day, covering: Covering, ghost all: set<Id>)
    returns (covered: set<Id>)
    requires rows <= db.absences.Keys
    requires forall id :: id in rows <==> InTeam(db, team, id) && KeyOf(db.absences[id]) == k
    requires Spans(db, rows, from, to)
    requires CoversWindow(db, team, from, to, covering)
    requires AreCandidates(db, team, all)
    ensures covered == Alike(db, all, k)
  {
    var members := set r | r in rows :: db.absences[r].member;
    forall id | id in rows ensures |members| >= 2 <==> Shared(db, team, id) {
      SharedWhen(db, team, rows, k, id);
    }
    if |members| < 2 {
      return {};
    }
    covered := RedundantOf(db, team, rows, from, to, covering);
  }

  /** The candidates, grouped by dates and words. */
  method CleanupCandidates(db: Db, team: Id, ghost all: set<Id>) returns (groups: map<Key, set<Id>>)
    requires AreCandidates(db, team, all)
    ensures Files(db, groups, all)
    ensures forall k :: k in groups ==> groups[k] != {}
  {
    groups := map[];
    var rows := set id | id in db.absences && InTeam(db, team, id);
    assert all <= rows;
    if rows == {} {
      return;
    }
    var from, to := Span(db, rows);
    var touching := Touching(db, team, from, to);
    if touching == {} {
      forall id | id in all ensures false {
        NoHolidaysNoCandidates(db, team, from, to, id);
      }
      return;
    }
    var covering := Cover(db, touching);
    var byKey := GroupByKey(db, rows);
    groups := CollectGroups(db, team, rows, byKey, from, to, covering, all);
  }

  method CollectGroups(
      db: Db, team: Id, ghost rows: set<Id>, byKey: map<Key, set<Id>>, from: Day, to: Day, covering: Covering,
      ghost all: set<Id>)
    returns (groups: map<Key, set<Id>>)
    requires rows <= db.absences.Keys && Spans(db, rows, from, to) && AllInTeam(db, team, rows) && all <= rows
    requires Files(db, byKey, rows)
    requires CoversWindow(db, team, from, to, covering)
    requires AreCandidates(db, team, all)
    ensures Files(db, groups, all)
    ensures forall k :: k in groups ==> groups[k] != {}
  {
    groups := map[];
    ghost var done: set<Key> := {};
    var todo := byKey.Keys;
    while todo != {}
      invariant done !! todo && done + todo == byKey.Keys
      invariant FilesSome(db, groups, done, all)
      decreases |todo|
    {
      var k :| k in todo;
      var covered := KeyCandidates(db, team, rows, byKey, k, from, to, covering, all);
      FilesOneGroupMore(db, groups, done, all, k);
      if covered != {} {
        groups := groups[k := covered];
      }
      todo, done := todo - {k}, done + {k};
    }
    assert done == byKey.Keys;
    NoOtherGroups(db, rows, byKey, all, groups);
  }

  /** The same for the keys gone through, and only groups that hold something. */
  ghost predicate FilesSome(db: Db, groups: map<Key, set<Id>>, done: set<Key>, all: set<Id>)
    requires all <= db.absences.Keys
  {
    && groups.Keys <= done
    && (forall k :: k in done ==> RowsAt(groups, k) == Alike(db, all, k))
    && (forall k :: k in groups ==> groups[k] != {})
  }

  lemma FilesOneGroupMore(db: Db, groups: map<Key, set<Id>>, done: set<Key>, all: set<Id>, k: Key)
    requires all <= db.absences.Keys && FilesSome(db, groups, done, all) && k !in done
    ensures FilesSome(db, if Alike(db, all, k) == {} then groups else groups[k := Alike(db, all, k)], done + {k}, all)
  {}

  method KeyCandidates(
      db: Db, team: Id, ghost rows: set<Id>, byKey: map<Key, set<Id>>, k: Key, from: Day, to: Day, covering: Covering,
      ghost all: set<Id>)
    returns (covered: set<Id>)
    requires rows <= db.absences.Keys && Spans(db, rows, from, to) && AllInTeam(db, team, rows) && all <= rows
    requires Files(db, byKey, rows) && k in byKey
    requires CoversWindow(db, team, from, to, covering)
    requires AreCandidates(db, team, all)
    ensures covered == Alike(db, all, k)
  {
    RowsOfKey(db, team, rows, byKey, k, from, to);
    covered := GroupCandidates(db, team, k, byKey[k], from, to, covering, all);
  }

  ghost predicate AllInTeam(db: Db, team: Id, rows: set<Id>) {
    forall id :: id in rows <==> InTeam(db, team, id)
  }

  lemma RowsOfKey(db: Db, team: Id, rows: set<Id>, byKey: map<Key, set<Id>>, k: Key, from: Day, to: Day)
    requires rows <= db.absences.Keys && Spans(db, rows, from, to) && AllInTeam(db, team, rows)
    requires Files(db, byKey, rows) && k in byKey
    ensures byKey[k] <= db.absences.Keys && Spans(db, byKey[k], from, to)
    ensures forall id :: id in byKey[k] <==> InTeam(db, team, id) && KeyOf(db.absences[id]) == k
  {
    assert byKey[k] == RowsAt(byKey, k) == Alike(db, rows, k);
  }

  lemma NoOtherGroups(db: Db, rows: set<Id>, byKey: map<Key, set<Id>>, all: set<Id>, groups: map<Key, set<Id>>)
    requires rows <= db.absences.Keys && all <= rows && Files(db, byKey, rows)
    requires FilesSome(db, groups, byKey.Keys, all)
    ensures Files(db, groups, all)
  {
    forall k ensures RowsAt(groups, k) == Alike(db, all, k) {
      if k !in byKey {
        assert RowsAt(byKey, k) == Alike(db, rows, k);
        assert Alike(db, all, k) <= Alike(db, rows, k);
      }
    }
  }

  // ---- what the cleanup leaves ---------------------------------------------------------

  function Without(db: Db, gone: set<Id>): Db {
    db.(absences := db.absences - gone)
  }

  lemma WithoutTicked(db: Db, ids: seq<Id>)
    ensures Ticked(ids) == set id | id in ids
    ensures Without(db, Ticked(ids)) ==
      db.(absences := map id | id in db.absences && id !in ids :: db.absences[id])
  {
    assert db.absences - Ticked(ids) == map id | id in db.absences && id !in ids :: db.absences[id];
  }

  /** Deleting any of the candidates leaves every member off exactly when they were. */
  lemma CleanupKeepsOff(db: Db, team: Id, gone: set<Id>, t: Id, member: Id, s: Slot)
    requires forall id :: id in gone ==> Candidate(db, team, id)
    ensures Off(Without(db, gone), t, member, s) <==> Off(db, t, member, s)
  {
    var after := Without(db, gone);
    assert OnHoliday(after, t, member, s) <==> OnHoliday(db, t, member, s) by {
      SameHolidays(db, after, t, member, s);
    }
    if Away(db, t, member, s) {
      var a :| a in db.absences && Takes(db.absences[a], t, member, s);
      if a in gone {
        assert OnHoliday(db, db.absences[a].team, db.absences[a].member, s);
      } else {
        assert a in after.absences;
      }
    }
    if Away(after, t, member, s) {
      var a :| a in after.absences && Takes(after.absences[a], t, member, s);
      assert a in db.absences;
    }
  }

  lemma SameHolidays(db: Db, after: Db, team: Id, member: Id, s: Slot)
    requires after == db.(absences := after.absences)
    ensures OnHoliday(after, team, member, s) <==> OnHoliday(db, team, member, s)
  {
    if OnHoliday(db, team, member, s) {
      var e :| e in db.entries && Gives(db, team, member, s, e);
      assert Gives(after, team, member, s, e);
    }
    if OnHoliday(after, team, member, s) {
      var e :| e in after.entries && Gives(after, team, member, s, e);
      assert Gives(db, team, member, s, e);
    }
  }

  /** The half-day is also given by a holiday or taken by another absence of the same member. */
  ghost predicate OtherwiseOff(db: Db, id: Id, s: Slot)
    requires id in db.absences
  {
    var a := db.absences[id];
    OnHoliday(db, a.team, a.member, s) || Away(Without(db, {id}), a.team, a.member, s)
  }

  /** One absence can be deleted unnoticed exactly when each of its half-days is off for another reason. */
  lemma DeletionUnnoticedWhen(db: Db, id: Id)
    requires id in db.absences
    ensures
      (forall t, member, s :: Off(Without(db, {id}), t, member, s) <==> Off(db, t, member, s))
      <==> (forall s :: Absent(db.absences[id], s) ==> OtherwiseOff(db, id, s))
  {
    var after := Without(db, {id});
    var a := db.absences[id];
    forall t, member, s ensures OnHoliday(after, t, member, s) <==> OnHoliday(db, t, member, s) {
      SameHolidays(db, after, t, member, s);
    }
    if forall t, member, s :: Off(after, t, member, s) <==> Off(db, t, member, s) {
      forall s | Absent(a, s) ensures OtherwiseOff(db, id, s) {
        assert Takes(a, a.team, a.member, s);
        assert Off(db, a.team, a.member, s);
      }
    }
    if forall s :: Absent(a, s) ==> OtherwiseOff(db, id, s) {
      forall t, member, s ensures Off(after, t, member, s) <==> Off(db, t, member, s) {
        if Away(db, t, member, s) {
          var b :| b in db.absences && Takes(db.absences[b], t, member, s);
          if b == id {
            assert OtherwiseOff(db, id, s);
          } else {
            assert b in after.absences;
          }
        }
        if Away(after, t, member, s) {
          var b :| b in after.absences && Takes(after.absences[b], t, member, s);
          assert b in db.absences;
        }
      }
    }
  }

  // ---- switches and exceptions --------------------------------------------------------

  function EnabledFor(db: Db, team: Id): set<Switch> {
    set w | w in db.enabled && w.team == team
  }

  function WithException(db: Db, member: Id, entry: Id, day: Day): Db {
    db.(exceptions := db.exceptions + {Exception(member, entry, day)})
  }

  /** An exception moves one member on one day, and only if no other holiday covers the half-day for them. */
  lemma ExceptionMovesOneDay(db: Db, team: Id, member: Id, entry: Id, day: Day, other: Id, s: Slot)
    requires member in db.teamOf && db.teamOf[member] == team && entry in db.entries
    ensures
      OnHoliday(WithException(db, member, entry, day), team, other, s) <==>
      if other == member && s.day == day
      then exists e :: e in db.entries && e != entry && Gives(db, team, member, s, e)
      else OnHoliday(db, team, other, s)
  {
    var after := WithException(db, member, entry, day);
    forall e | e in db.entries
      ensures Gives(after, team, other, s, e) <==>
        Gives(db, team, other, s, e) && !(other == member && s.day == day && e == entry)
    {}
    if OnHoliday(db, team, other, s) {
      var e :| e in db.entries && Gives(db, team, other, s, e);
      assert (other == member && s.day == day && e == entry) || Gives(after, team, other, s, e);
    }
    if OnHoliday(after, team, other, s) {
      var e :| e in db.entries && Gives(after, team, other, s, e);
      assert Gives(db, team, other, s, e);
    }
    if e :| e in db.entries && e != entry && Gives(db, team, member, s, e) {
      assert other == member ==> Gives(after, team, other, s, e);
    }
  }

  function Toggled(db: Db, team: Id, calendar: Id, on: bool): Db {
    db.(enabled := if on then db.enabled + {Switch(team, calendar)} else db.enabled - {Switch(team, calendar)})
  }

  /** While a calendar is off none of its entries counts; back on, everyone is off exactly when they were. */
  lemma SwitchingBackRestores(db: Db, team: Id, calendar: Id, member: Id, s: Slot)
    requires Switch(team, calendar) in db.enabled
    ensures
      var off := Toggled(db, team, calendar, false);
      && Toggled(off, team, calendar, true) == db
      && (OnHoliday(off, team, member, s) <==>
            exists e :: e in db.entries && db.entries[e].calendar != calendar && Gives(db, team, member, s, e))
  {
    var off := Toggled(db, team, calendar, false);
    assert off.enabled + {Switch(team, calendar)} == db.enabled;
    if OnHoliday(off, team, member, s) {
      var e :| e in off.entries && Gives(off, team, member, s, e);
      assert Gives(db, team, member, s, e);
    }
    if e :| e in db.entries && db.entries[e].calendar != calendar && Gives(db, team, member, s, e) {
      assert Gives(off, team, member, s, e);
    }
  }

  class TeamHolidays {
    var db: Db

    /** No team observes more calendars than the limit. */
    ghost predicate Valid()
      reads this
    {
      forall team :: |EnabledFor(db, team)| <= MAX_CALENDARS_PER_TEAM
    }

    constructor (db: Db)
      requires forall team :: |EnabledFor(db, team)| <= MAX_CALENDARS_PER_TEAM
      ensures Valid() && this.db == db
    {
      this.db := db;
    }

    /** All of the ticked absences go, or, if any is no longer a candidate, none; who is off when never changes. */
    method ApplyCleanup(team: Id, ids: seq<Id>) returns (r: Result<nat, Error>)
      requires Valid()
      modifies this
      ensures Valid()
      ensures r == Err(NotFound) <==> team !in old(db).teams
      ensures r == Err(NotADuplicate) <==>
        team in old(db).teams && exists id :: id in ids && !Candidate(old(db), team, id)
      ensures r.Err? ==> db == old(db) && (r == Err(NotFound) || r == Err(NotADuplicate))
      ensures r.Ok? ==> r.value == |set id | id in ids|
      ensures r.Ok? ==>
        db == old(db).(absences := map id | id in old(db).absences && id !in ids :: old(db).absences[id])
      ensures forall t, member, s :: Off(db, t, member, s) <==> Off(old(db), t, member, s)
    {
      if team !in db.teams {
        return Err(NotFound);
      }
      ghost var all := set id | id in db.absences && Candidate(db, team, id);
      var groups := CleanupCandidates(db, team, all);
      var allowed := set k, id | k in groups && id in groups[k] :: id;
      AllowedAreFiled(db, groups, allowed, all);
      if exists id :: id in ids && id !in allowed {
        return Err(NotADuplicate);
      }
      var gone := Ticked(ids);
      forall t, member, s ensures Off(Without(db, gone), t, member, s) <==> Off(db, t, member, s) {
        CleanupKeepsOff(db, team, gone, t, member, s);
      }
      WithoutTicked(db, ids);
      db := Without(db, gone);
      r := Ok(|gone|);
    }

    method EnableCalendar(team: Id, calendar: Id) returns (failure: Option<Error>)
      requires Valid()
      modifies this
      ensures Valid()
      ensures failure == Some(NotFound) <==> team !in old(db).teams || calendar !in old(db).calendars
      ensures failure == Some(LimitReached) <==>
        && team in old(db).teams && calendar in old(db).calendars && Switch(team, calendar) !in old(db).enabled
        && |set w | w in old(db).enabled && w.team == team| == 20
      ensures db ==
        if failure.None? then old(db).(enabled := old(db).enabled + {Switch(team, calendar)}) else old(db)
      ensures failure.None? || failure == Some(NotFound) || failure == Some(LimitReached)
    {
      if team !in db.teams || calendar !in db.calendars {
        return Some(NotFound);
      }
      if Switch(team, calendar) in db.enabled {
        assert db.enabled + {Switch(team, calendar)} == db.enabled;
        return None;
      }
      if |EnabledFor(db, team)| >= MAX_CALENDARS_PER_TEAM {
        return Some(LimitReached);
      }
      forall t ensures |EnabledFor(Toggled(db, team, calendar, true), t)| <= MAX_CALENDARS_PER_TEAM {
        OneMoreEnabled(db, team, calendar, t);
      }
      db := Toggled(db, team, calendar, true);
      failure := None;
    }

    method DisableCalendar(team: Id, calendar: Id) returns (failure: Option<Error>)
      requires Valid()
      modifies this
      ensures Valid()
      ensures failure == if team in old(db).teams then None else Some(NotFound)
      ensures db ==
        if failure.None? then old(db).(enabled := old(db).enabled - {Switch(team, calendar)}) else old(db)
    {
      if team !in db.teams {
        return Some(NotFound);
      }
      forall t ensures |EnabledFor(Toggled(db, team, calendar, false), t)| <= MAX_CALENDARS_PER_TEAM {
        SubsetIsSmaller(EnabledFor(Toggled(db, team, calendar, false), t), EnabledFor(db, t));
      }
      db := Toggled(db, team, calendar, false);
      failure := None;
    }

    /** Marking a day the member works twice is the same as marking it once. */
    method SetException(team: Id, member: Id, entry: Id, day: Day) returns (failure: Option<Error>)
      requires Valid()
      modifies this
      ensures Valid()
      ensures failure == Some(NotFound) <==>
        || team !in old(db).teams || member !in old(db).teamOf || old(db).teamOf[member] != team
        || entry !in old(db).entries
      ensures failure == Some(DayNotInHoliday) <==>
        && team in old(db).teams && member in old(db).teamOf && old(db).teamOf[member] == team
        && entry in old(db).entries
        && (day < old(db).entries[entry].block.start || old(db).entries[entry].block.end < day)
      ensures failure == Some(CalendarNotEnabled) <==>
        && team in old(db).teams && member in old(db).teamOf && old(db).teamOf[member] == team
        && entry in old(db).entries
        && old(db).entries[entry].block.start <= day <= old(db).entries[entry].block.end
        && Switch(team, old(db).entries[entry].calendar) !in old(db).enabled
      ensures failure in {None, Some(NotFound), Some(DayNotInHoliday), Some(CalendarNotEnabled)}
      ensures db ==
        if failure.None? then old(db).(exceptions := old(db).exceptions + {Exception(member, entry, day)}) else old(db)
    {
      failure := TargetError(db, team, member, entry, day);
      if failure.Some? {
        return;
      }
      if Switch(team, db.entries[entry].calendar) !in db.enabled {
        return Some(CalendarNotEnabled);
      }
      forall t ensures EnabledFor(WithException(db, member, entry, day), t) == EnabledFor(db, t) {}
      if Exception(member, entry, day) in db.exceptions {
        assert db.exceptions + {Exception(member, entry, day)} == db.exceptions;
      } else {
        db := WithException(db, member, entry, day);
      }
    }

    /** Allowed whether or not the calendar is enabled. */
    method ClearException(team: Id, member: Id, entry: Id, day: Day) returns (failure: Option<Error>)
      requires Valid()
      modifies this
      ensures Valid()
      ensures failure == Some(NotFound) <==>
        || team !in old(db).teams || member !in old(db).teamOf || old(db).teamOf[member] != team
        || entry !in old(db).entries
      ensures failure == Some(DayNotInHoliday) <==>
        && team in old(db).teams && member in old(db).teamOf && old(db).teamOf[member] == team
        && entry in old(db).entries
        && (day < old(db).entries[entry].block.start || old(db).entries[entry].block.end < day)
      ensures failure in {None, Some(NotFound), Some(DayNotInHoliday)}
      ensures db == if failure.None? then old(db).(exceptions := old(db).exceptions - {Exception(member, entry, day)})
                    else old(db)
    {
      failure := TargetError(db, team, member, entry, day);
      if failure.Some? {
        return;
      }
      var after := db.(exceptions := db.exceptions - {Exception(member, entry, day)});
      forall t ensures EnabledFor(after, t) == EnabledFor(db, t) {}
      db := after;
    }
  }

  function Ticked(ids: seq<Id>): set<Id> {
    set id | id in ids
  }

  function TargetError(db: Db, team: Id, member: Id, entry: Id, day: Day): (error: Option<Error>)
    ensures error.None? ==> entry in db.entries
  {
    if team !in db.teams then Some(NotFound)
    else if member !in db.teamOf || db.teamOf[member] != team then Some(NotFound)
    else if entry !in db.entries then Some(NotFound)
    else if !(db.entries[entry].block.start <= day <= db.entries[entry].block.end) then Some(DayNotInHoliday)
    else None
  }

  lemma AllowedAreFiled(db: Db, groups: map<Key, set<Id>>, allowed: set<Id>, all: set<Id>)
    requires all <= db.absences.Keys && Files(db, groups, all)
    requires allowed == set k, id | k in groups && id in groups[k] :: id
    ensures allowed == all
  {
    forall id | id in all ensures id in allowed {
      var k := KeyOf(db.absences[id]);
      assert id in Alike(db, all, k);
      assert RowsAt(groups, k) == Alike(db, all, k);
    }
    forall id | id in allowed ensures id in all {
      var k :| k in groups && id in groups[k];
      assert RowsAt(groups, k) == Alike(db, all, k);
    }
  }

  lemma OneMoreEnabled(db: Db, team: Id, calendar: Id, t: Id)
    requires |EnabledFor(db, team)| < MAX_CALENDARS_PER_TEAM && |EnabledFor(db, t)| <= MAX_CALENDARS_PER_TEAM
    ensures |EnabledFor(Toggled(db, team, calendar, true), t)| <= MAX_CALENDARS_PER_TEAM
  {
    var after := EnabledFor(Toggled(db, team, calendar, true), t);
    if t == team {
      SubsetIsSmaller(after, EnabledFor(db, t) + {Switch(team, calendar)});
    } else {
      SubsetIsSmaller(after, EnabledFor(db, t));
    }
  }
}
