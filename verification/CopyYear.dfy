/** Proposing a calendar's entries one year later (backend/app/routes/holiday_calendars.py, preview_copy_year). */
module CopyYear {
  import opened Wrappers
  import opened Holidays

  datatype Date = Date(year: int, month: int, day: int)

  predicate IsLeap(year: int) {
    year % 4 == 0 && (year % 100 != 0 || year % 400 == 0)
  }

  function DaysIn(year: int, month: int): int {
    if month == 2 then (if IsLeap(year) then 29 else 28)
    else if month in {4, 6, 9, 11} then 30
    else 31
  }

  /** The dates that exist; the last year a date can have is 9999. */
  predicate Exists(d: Date) {
    1 <= d.year <= 9999 && 1 <= d.month <= 12 && 1 <= d.day <= DaysIn(d.year, d.month)
  }

  predicate Before(a: Date, b: Date) {
    a.year < b.year || (a.year == b.year && (a.month < b.month || (a.month == b.month && a.day < b.day)))
  }

  /** The calendar: how long the months are, and which dates there are. */
  lemma ExistsWhen(d: Date)
    ensures
      var leap := d.year % 4 == 0 && (d.year % 100 != 0 || d.year % 400 == 0);
      var lengths := [31, if leap then 29 else 28, 31, 30, 31, 30, 31, 31, 30, 31, 30, 31];
      Exists(d) <==> 1 <= d.year <= 9999 && 1 <= d.month <= 12 && 1 <= d.day <= lengths[d.month - 1]
  {}

  function Checked(d: Date): Option<Date> {
    if Exists(d) then Some(d) else None
  }

  /** A date that does not exist next year falls back to the 28th; a second failure is not caught. */
  function NextYear(d: Date): Option<Date> {
    var same := Checked(d.(year := d.year + 1));
    if same.Some? then same else Checked(d.(year := d.year + 1, day := 28))
  }

  predicate IsLeapDay(d: Date) {
    d.month == 2 && d.day == 29
  }

  /** Next year exists up to 9998, and keeps month and day but for 29 February. */
  lemma NextYearIs(d: Date)
    requires Exists(d)
    ensures NextYear(d).Some? <==> d.year < 9999
    ensures NextYear(d).Some? ==>
      Exists(NextYear(d).value)
      && NextYear(d).value == Date(d.year + 1, d.month, if IsLeapDay(d) then 28 else d.day)
  {
    if IsLeapDay(d) {
      assert !IsLeap(d.year + 1);
    }
  }

  lemma NextYearKeepsOrder(a: Date, b: Date)
    requires Exists(a) && Exists(b) && !Before(b, a) && b.year < 9999
    ensures NextYear(a).Some? && NextYear(b).Some? && !Before(NextYear(b).value, NextYear(a).value)
  {
    NextYearIs(a);
    NextYearIs(b);
  }

  /** Two dates come out as one exactly when they are the 28th and the 29th of a leap February. */
  lemma NextYearMerges(a: Date, b: Date)
    requires Exists(a) && Exists(b) && Before(a, b) && b.year < 9999
    ensures NextYear(a) == NextYear(b) <==> IsLeapDay(b) && a == b.(day := 28)
  {
    NextYearIs(a);
    NextYearIs(b);
  }

  // ---- days of the week ---------------------------------------------------------------

  function DaysBeforeYear(year: int): int {
    365 * (year - 1) + (year - 1) / 4 - (year - 1) / 100 + (year - 1) / 400
  }

  function DaysBeforeMonth(year: int, month: int): int
    decreases month
  {
    if month <= 1 then 0 else DaysBeforeMonth(year, month - 1) + DaysIn(year, month - 1)
  }

  /** Days since Monday, 1 January of the year 1. */
  function Number(d: Date): Day {
    DaysBeforeYear(d.year) + DaysBeforeMonth(d.year, d.month) + d.day - 1
  }

  function DayAfter(d: Date): Date {
    if d.day < DaysIn(d.year, d.month) then d.(day := d.day + 1)
    else if d.month < 12 then Date(d.year, d.month + 1, 1)
    else Date(d.year + 1, 1, 1)
  }

  lemma Fourths(n: int)
    ensures n / 4 == (n - 1) / 4 + if n % 4 == 0 then 1 else 0
  {}

  lemma Hundredths(n: int)
    ensures n / 100 == (n - 1) / 100 + if n % 100 == 0 then 1 else 0
    ensures n % 100 == 0 ==> n % 4 == 0
  {}

  lemma FourHundredths(n: int)
    ensures n / 400 == (n - 1) / 400 + if n % 400 == 0 then 1 else 0
    ensures n % 400 == 0 ==> n % 100 == 0
  {}

  lemma YearHas(year: int)
    ensures DaysBeforeYear(year + 1) == DaysBeforeYear(year) + if IsLeap(year) then 366 else 365
  {
    Fourths(year);
    Hundredths(year);
    FourHundredths(year);
  }

  lemma MonthsHave(year: int)
    ensures DaysBeforeMonth(year, 12) + 31 == if IsLeap(year) then 366 else 365
  {
    assert DaysBeforeMonth(year, 3) == 31 + DaysIn(year, 2);
    assert DaysBeforeMonth(year, 7) == DaysBeforeMonth(year, 3) + 31 + 30 + 31 + 30;
    assert DaysBeforeMonth(year, 12) == DaysBeforeMonth(year, 7) + 31 + 31 + 30 + 31 + 30;
  }

  /** Consecutive dates have consecutive numbers. */
  lemma NumbersCount(d: Date)
    requires Exists(d)
    ensures Number(DayAfter(d)) == Number(d) + 1
  {
    if d.month == 12 && d.day == 31 {
      YearHas(d.year);
      MonthsHave(d.year);
    }
  }

  lemma {:induction false} MonthsInOrder(year: int, a: int, b: int)
    requires a <= b
    ensures DaysBeforeMonth(year, a) <= DaysBeforeMonth(year, b)
    ensures 1 <= a < b ==> DaysBeforeMonth(year, a) + DaysIn(year, a) <= DaysBeforeMonth(year, b)
    decreases b - a
  {
    if a < b {
      MonthsInOrder(year, a, b - 1);
    }
  }

  lemma {:induction false} YearsInOrder(a: int, b: int)
    requires a <= b
    ensures DaysBeforeYear(a) <= DaysBeforeYear(b)
    decreases b - a
  {
    if a < b {
      YearsInOrder(a, b - 1);
      YearHas(b - 1);
    }
  }

  lemma WithinYear(d: Date)
    requires Exists(d)
    ensures DaysBeforeYear(d.year) <= Number(d) < DaysBeforeYear(d.year + 1)
  {
    MonthsInOrder(d.year, d.month, 12);
    MonthsInOrder(d.year, 0, d.month);
    YearHas(d.year);
    MonthsHave(d.year);
  }

  lemma OneYearInOrder(a: Date, b: Date)
    requires Exists(a) && Exists(b) && Before(a, b) && a.year == b.year
    ensures Number(a) < Number(b)
  {
    if a.month < b.month {
      MonthsInOrder(a.year, a.month, b.month);
    }
  }

  /** An earlier date has a smaller number. */
  lemma NumbersInOrder(a: Date, b: Date)
    requires Exists(a) && Exists(b) && Before(a, b)
    ensures Number(a) < Number(b)
  {
    if a.year == b.year {
      OneYearInOrder(a, b);
    } else {
      WithinYear(a);
      WithinYear(b);
      YearsInOrder(a.year + 1, b.year);
    }
  }

  /** The date after is a date too, but for the last there is. */
  lemma DayAfterExists(d: Date)
    requires Exists(d) && d != Date(9999, 12, 31)
    ensures Exists(DayAfter(d)) && Before(d, DayAfter(d))
  {}

  /** One date is before another exactly when its number is smaller, and dates with one number are the same. */
  lemma BeforeWhen(a: Date, b: Date)
    requires Exists(a) && Exists(b)
    ensures Before(a, b) <==> Number(a) < Number(b)
    ensures a == b <==> Number(a) == Number(b)
  {
    if Before(a, b) {
      NumbersInOrder(a, b);
    } else if Before(b, a) {
      NumbersInOrder(b, a);
    }
  }

  /** The first day there is was a Monday, as was 1 January 2024. */
  lemma NumbersBegin()
    ensures Number(Date(1, 1, 1)) == 0 && Number(Date(2024, 1, 1)) % 7 == 0
  {}

  predicate OnWeekend(day: Day) {
    day % 7 >= 5
  }

  predicate TouchesWeekend(from: Day, to: Day) {
    exists day | from <= day <= to :: OnWeekend(day)
  }

  /** Days in a row touch a weekend exactly when there are enough of them to get past the Friday. */
  lemma TouchesWeekendWhen(from: Day, to: Day)
    requires from <= to
    ensures TouchesWeekend(from, to) <==> from % 7 + (to - from) >= 5
  {
    if from % 7 + (to - from) >= 5 {
      var day := if OnWeekend(from) then from else from + (5 - from % 7);
      assert from <= day <= to && OnWeekend(day);
    } else {
      forall day | from <= day <= to ensures !OnWeekend(day) {
        assert day % 7 == from % 7 + (day - from);
      }
    }
  }

  method AnyOnWeekend(from: Day, to: Day) returns (found: bool)
    requires from <= to
    ensures found == TouchesWeekend(from, to)
  {
    found := false;
    for day := from to to + 1
      invariant found <==> exists d | from <= d < day :: OnWeekend(d)
    {
      found := found || OnWeekend(day);
    }
  }

  // ---- entries ------------------------------------------------------------------------

  datatype Holiday = Holiday(words: string, start: Date, startHalf: Half, end: Date, endHalf: Half)

  datatype HolidayKey = HolidayKey(folded: string, start: Date, startHalf: Half, end: Date, endHalf: Half)

  function KeyOf(e: Holiday): HolidayKey {
    HolidayKey(Fold(e.words), e.start, e.startHalf, e.end, e.endHalf)
  }

  /** What validation asks of every entry, stored or proposed. */
  predicate Coherent(e: Holiday) {
    && Exists(e.start) && Exists(e.end) && !Before(e.end, e.start)
    && !(e.start == e.end && e.startHalf == Pm && e.endHalf == Am)
  }

  datatype Failure = NoSuchDate | Incoherent

  /** A proposal is an entry like any other, and validated like one. */
  function Propose(e: Holiday): Result<Holiday, Failure> {
    var start, end := NextYear(e.start), NextYear(e.end);
    if start.None? || end.None? then Err(NoSuchDate)
    else
      var last := if Before(end.value, start.value) then start.value else end.value;
      var proposal := Holiday(e.words, start.value, e.startHalf, last, e.endHalf);
      if Coherent(proposal) then Ok(proposal) else Err(Incoherent)
  }

  /** From the afternoon of 28 February to the next morning, in a leap year. */
  predicate LeapNight(e: Holiday) {
    IsLeapDay(e.end) && e.start == e.end.(day := 28) && e.startHalf == Pm && e.endHalf == Am
  }

  /** A stored entry has a proposal exactly when it ends before 9999 and is not that one night. */
  lemma ProposalExistsWhen(e: Holiday)
    requires Coherent(e)
    ensures Propose(e).Ok? <==> e.end.year < 9999 && !LeapNight(e)
  {
    NextYearIs(e.start);
    NextYearIs(e.end);
    if e.end.year < 9999 {
      NextYearKeepsOrder(e.start, e.end);
      if Before(e.start, e.end) {
        NextYearMerges(e.start, e.end);
      }
    }
  }

  /** Such a night, in 2028: a sound entry without a proposal. */
  lemma LeapNightFails(words: string)
    ensures
      var e := Holiday(words, Date(2028, 2, 28), Pm, Date(2028, 2, 29), Am);
      Coherent(e) && Propose(e) == Err(Incoherent)
  {}

  /** The clamp on the end is never needed: a proposal ends one year after its source does. */
  lemma ProposalIsOneYearLater(e: Holiday)
    requires Coherent(e) && Propose(e).Ok?
    ensures
      var p := Propose(e).value;
      && Some(p.start) == NextYear(e.start) && Some(p.end) == NextYear(e.end)
      && p == e.(start := p.start, end := p.end)
  {
    NextYearIs(e.start);
    NextYearIs(e.end);
    NextYearKeepsOrder(e.start, e.end);
  }

  datatype Proposal = Proposal(entry: Holiday, source: Date, onWeekend: bool, duplicate: bool)

  predicate Unproposable(e: Holiday) {
    e.end.year == 9999 || LeapNight(e)
  }

  function Proposed(e: Holiday, existing: set<HolidayKey>): Result<Proposal, Failure> {
    var p := Propose(e);
    if p.Err? then Err(p.error)
    else
      var days := TouchesWeekend(Number(p.value.start), Number(p.value.end));
      Ok(Proposal(p.value, e.start, days, KeyOf(p.value) in existing))
  }

  method ProposeOne(e: Holiday, existing: set<HolidayKey>) returns (r: Result<Proposal, Failure>)
    ensures r == Proposed(e, existing)
  {
    var p := Propose(e);
    if p.Err? {
      return Err(p.error);
    }
    if Before(p.value.start, p.value.end) {
      NumbersInOrder(p.value.start, p.value.end);
    }
    var flagged := AnyOnWeekend(Number(p.value.start), Number(p.value.end));
    r := Ok(Proposal(p.value, e.start, flagged, KeyOf(p.value) in existing));
  }

  /** The same holiday, whatever case or spacing its words are in. */
  ghost predicate SameHoliday(a: Holiday, b: Holiday) {
    && Fold(a.words) == Fold(b.words) && a.start == b.start && a.startHalf == b.startHalf
    && a.end == b.end && a.endHalf == b.endHalf
  }

  /**
   * A proposal is the entry a year later, flagged a duplicate exactly when the calendar has that holiday already, and
   * flagged for its days exactly when they get past a Friday.
   */
  lemma ProposedIs(e: Holiday, entries: set<Holiday>)
    requires Coherent(e) && Propose(e).Ok?
    ensures
      var proposed := Proposed(e, set x | x in entries :: KeyOf(x));
      && proposed.Ok? && proposed.value.entry == Propose(e).value && proposed.value.source == e.start
      && (proposed.value.duplicate <==> exists x :: x in entries && SameHoliday(x, proposed.value.entry))
      && var from, to := Number(proposed.value.entry.start), Number(proposed.value.entry.end);
         proposed.value.onWeekend <==> from % 7 + (to - from) >= 5
  {
    var existing := set x | x in entries :: KeyOf(x);
    var p := Propose(e).value;
    if x :| x in entries && SameHoliday(x, p) {
      assert KeyOf(x) in existing && KeyOf(x) == KeyOf(p);
    }
    if KeyOf(p) in existing {
      var x :| x in entries && KeyOf(x) == KeyOf(p);
      assert SameHoliday(x, p);
    }
    BeforeWhen(p.end, p.start);
    TouchesWeekendWhen(Number(p.start), Number(p.end));
  }

  lemma ProposedExistsWhen(e: Holiday, existing: set<HolidayKey>)
    requires Coherent(e)
    ensures Proposed(e, existing).Err? <==> Unproposable(e)
  {
    ProposalExistsWhen(e);
  }

  method ProposeEach(chosen: seq<Holiday>, existing: set<HolidayKey>) returns (r: Result<seq<Proposal>, Failure>)
    ensures r.Err? <==> exists j :: 0 <= j < |chosen| && Proposed(chosen[j], existing).Err?
    ensures r.Ok? ==> |r.value| == |chosen|
    ensures r.Ok? ==> forall j :: 0 <= j < |chosen| ==> Proposed(chosen[j], existing) == Ok(r.value[j])
  {
    var proposals: seq<Proposal> := [];
    for i := 0 to |chosen|
      invariant |proposals| == i
      invariant forall j :: 0 <= j < i ==> Proposed(chosen[j], existing) == Ok(proposals[j])
    {
      var proposed := ProposeOne(chosen[i], existing);
      if proposed.Err? {
        return Err(proposed.error);
      }
      proposals := proposals + [proposed.value];
    }
    r := Ok(proposals);
  }

  /** One entry without a proposal fails the whole preview. */
  method PreviewCopyYear(entries: seq<Holiday>, year: int, existing: set<HolidayKey>)
    returns (r: Result<seq<Proposal>, Failure>)
    requires forall e :: e in entries ==> Coherent(e)
    ensures r.Err? <==> exists e :: e in entries && e.start.year == year && Unproposable(e)
    ensures r.Ok? ==> |r.value| == |OfYear(entries, year)|
    ensures r.Ok? ==> forall j :: 0 <= j < |r.value| ==>
      Proposed(OfYear(entries, year)[j], existing) == Ok(r.value[j])
  {
    OfYearIs(entries, year);
    var chosen := OfYear(entries, year);
    forall e | e in chosen ensures Proposed(e, existing).Err? <==> Unproposable(e) {
      ProposedExistsWhen(e, existing);
    }
    r := ProposeEach(chosen, existing);
    if r.Err? {
      var j :| 0 <= j < |chosen| && Proposed(chosen[j], existing).Err?;
      assert chosen[j] in chosen && Unproposable(chosen[j]);
    } else {
      forall e | e in chosen ensures !Unproposable(e) {
        var j :| 0 <= j < |chosen| && chosen[j] == e;
        assert Proposed(chosen[j], existing).Ok?;
      }
    }
  }

  function OfYear(entries: seq<Holiday>, year: int): seq<Holiday> {
    if entries == [] then []
    else (if entries[0].start.year == year then [entries[0]] else []) + OfYear(entries[1..], year)
  }

  lemma {:induction false} OfYearIs(entries: seq<Holiday>, year: int)
    ensures forall e :: e in OfYear(entries, year) <==> e in entries && e.start.year == year
    ensures forall e: Holiday :: e.start.year == year ==> multiset(OfYear(entries, year))[e] == multiset(entries)[e]
  {
    if entries != [] {
      OfYearIs(entries[1..], year);
      assert entries == [entries[0]] + entries[1..];
    }
  }
}
