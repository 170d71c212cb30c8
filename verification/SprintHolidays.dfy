/** The holidays a sprint header shows (backend/app/routes/team_holidays.py, get_pi_holidays). */
module SprintHolidays {
  import opened Wrappers
  import opened Holidays
  import opened WorkingPatterns

  datatype Person = Person(
    id: Id, versions: seq<Version>, activeFrom: Option<Day>, activeTo: Option<Day>, counts: bool)

  predicate ActiveOn(p: Person, day: Day) {
    (p.activeFrom.Some? ==> p.activeFrom.value <= day) && (p.activeTo.Some? ==> day <= p.activeTo.value)
  }

  /** A pattern names its half-days by weekday; days are counted from a Monday. */
  predicate Owes(v: Version, s: Slot) {
    Slot(s.day % 7, s.half) in v.pattern.worked
  }

  predicate WellKept(p: Person) {
    Ascending(p.versions) && forall i, j :: 0 <= i < j < |p.versions| ==> p.versions[i].since != p.versions[j].since
  }

  /** The person loses this half-day, contracted by the version in force, to this entry. */
  ghost predicate Loses(p: Person, entry: Id, s: Slot, exceptions: set<Exception>) {
    && p.counts && ActiveOn(p, s.day) && Exception(p.id, entry, s.day) !in exceptions
    && exists v :: Governs(Elements(p.versions), v, s.day) && Owes(v, s)
  }

  ghost predicate CostsSlot(people: seq<Person>, entry: Id, s: Slot, exceptions: set<Exception>) {
    exists p :: p in people && Loses(p, entry, s, exceptions)
  }

  /** The entry removes a contracted half-day of someone who counts, between these days. */
  ghost predicate Costs(people: seq<Person>, entry: Id, b: Block, from: Day, to: Day, exceptions: set<Exception>) {
    exists s: Slot :: from <= s.day <= to && Covers(b, s) && CostsSlot(people, entry, s, exceptions)
  }

  /** The person is of the team that day, counts, and is contracted by the version in force for that weekday's half. */
  ghost predicate WorksThen(p: Person, v: Version, s: Slot) {
    && p.counts
    && (p.activeFrom.Some? ==> s.day >= p.activeFrom.value) && (p.activeTo.Some? ==> s.day <= p.activeTo.value)
    && Governs(Elements(p.versions), v, s.day)
    && exists w :: w in v.pattern.worked && w.half == s.half && (s.day - w.day) % 7 == 0 && 0 <= w.day < 7
  }

  lemma LosesWhen(p: Person, entry: Id, s: Slot, exceptions: set<Exception>)
    ensures Loses(p, entry, s, exceptions) <==>
      Exception(p.id, entry, s.day) !in exceptions && exists v :: WorksThen(p, v, s)
  {
    if Loses(p, entry, s, exceptions) {
      var v :| Governs(Elements(p.versions), v, s.day) && Owes(v, s);
      SameWeekday(s.day, s.day % 7);
      assert WorksThen(p, v, s);
    }
    if v :| WorksThen(p, v, s) {
      var w :| w in v.pattern.worked && w.half == s.half && (s.day - w.day) % 7 == 0 && 0 <= w.day < 7;
      SameWeekday(s.day, w.day);
      assert Owes(v, s);
    }
  }

  /** An entry costs a sprint time when someone works on one of its half-days there and is not excepted from it. */
  lemma CostsWhen(people: seq<Person>, entry: Id, b: Block, from: Day, to: Day, exceptions: set<Exception>)
    ensures Costs(people, entry, b, from, to, exceptions) <==>
      exists p, v, s ::
        && p in people && WorksThen(p, v, s) && from <= s.day <= to && Covers(b, s)
        && Exception(p.id, entry, s.day) !in exceptions
  {
    forall p, s: Slot ensures Loses(p, entry, s, exceptions) <==>
      Exception(p.id, entry, s.day) !in exceptions && exists v :: WorksThen(p, v, s)
    {
      LosesWhen(p, entry, s, exceptions);
    }
    forall p, v, s |
      p in people && WorksThen(p, v, s) && from <= s.day <= to && Covers(b, s)
      && Exception(p.id, entry, s.day) !in exceptions
      ensures Costs(people, entry, b, from, to, exceptions)
    {
      assert CostsSlot(people, entry, s, exceptions);
    }
  }

  lemma SameWeekday(day: Day, weekday: int)
    requires 0 <= weekday < 7
    ensures (day - weekday) % 7 == 0 <==> weekday == day % 7
  {}

  lemma OneVersionDecides(p: Person, v: Version, s: Slot)
    requires WellKept(p) && Governs(Elements(p.versions), v, s.day)
    ensures (exists u :: Governs(Elements(p.versions), u, s.day) && Owes(u, s)) <==> Owes(v, s)
  {
    assert DistinctDates(Elements(p.versions));
  }

  method PersonLoses(p: Person, entry: Id, s: Slot, exceptions: set<Exception>) returns (loses: bool)
    requires WellKept(p)
    ensures loses <==> Loses(p, entry, s, exceptions)
  {
    if !p.counts || !ActiveOn(p, s.day) || p.versions == [] {
      return false;
    }
    if Exception(p.id, entry, s.day) in exceptions {
      return false;
    }
    var v := ResolveVersion(p.versions, s.day);
    OneVersionDecides(p, v, s);
    loses := Owes(v, s);
  }

  method CostsTime(people: seq<Person>, entry: Id, b: Block, from: Day, to: Day, exceptions: set<Exception>)
    returns (costs: bool)
    requires forall p :: p in people ==> WellKept(p)
    ensures costs <==> Costs(people, entry, b, from, to, exceptions)
  {
    var slots := HalfDays(b, from, to);
    for i := 0 to |slots|
      invariant forall k :: 0 <= k < i ==> !CostsSlot(people, entry, slots[k], exceptions)
    {
      for j := 0 to |people|
        invariant forall k :: 0 <= k < j ==> !Loses(people[k], entry, slots[i], exceptions)
      {
        var loses := PersonLoses(people[j], entry, slots[i], exceptions);
        if loses {
          assert people[j] in people && slots[i] in slots && CostsSlot(people, entry, slots[i], exceptions);
          return true;
        }
      }
    }
    costs := false;
  }

  datatype Listed = Listed(id: Id, block: Block)

  /** The entries shown for a sprint: those that cost it time. One that does not touch it cannot. */
  method SprintHeader(entries: seq<Listed>, people: seq<Person>, from: Day, to: Day, exceptions: set<Exception>)
    returns (shown: seq<Listed>)
    requires forall p :: p in people ==> WellKept(p)
    ensures forall e :: e in shown <==> e in entries && Costs(people, e.id, e.block, from, to, exceptions)
  {
    shown := [];
    for i := 0 to |entries|
      invariant forall e :: e in shown <==> e in entries[..i] && Costs(people, e.id, e.block, from, to, exceptions)
    {
      var e := entries[i];
      assert entries[..i + 1] == entries[..i] + [e];
      if e.block.end < from || to < e.block.start {
        assert !Costs(people, e.id, e.block, from, to, exceptions);
      } else {
        var costs := CostsTime(people, e.id, e.block, from, to, exceptions);
        if costs {
          shown := shown + [e];
        }
      }
    }
    assert entries[..|entries|] == entries;
  }
}
