/**
 * Days, halves and dated blocks, shared by absences and holidays (backend/app/services/occurrences.py, holidays.py).
 * A day is counted from a Monday.
 */
module Holidays {
  import opened Wrappers

  type Day = int
  type Id = nat

  datatype Half = Am | Pm

  /** From a half of the first day to a half of the last, whole days between. */
  datatype Block = Block(start: Day, startHalf: Half, end: Day, endHalf: Half)

  datatype Slot = Slot(day: Day, half: Half)

  /** Only the two ends are partial; on a day that is both, the start decides. */
  predicate Covers(b: Block, s: Slot) {
    && b.start <= s.day <= b.end
    && (if s.day == b.start && b.startHalf == Pm then s.half == Pm
        else if s.day == b.end && b.endHalf == Am then s.half == Am
        else true)
  }

  /** The half-days of all days, in order. */
  function Ordinal(day: Day, half: Half): int {
    2 * day + if half == Am then 0 else 1
  }

  /** A block that does not end before it starts covers the half-days between its ends and no other. */
  lemma CoversIsInterval(b: Block, s: Slot)
    requires Ordinal(b.start, b.startHalf) <= Ordinal(b.end, b.endHalf)
    ensures Covers(b, s) <==>
      Ordinal(b.start, b.startHalf) <= Ordinal(s.day, s.half) <= Ordinal(b.end, b.endHalf)
  {}

  function Halves(b: Block, day: Day): seq<Slot> {
    if day == b.start && b.startHalf == Pm then [Slot(day, Pm)]
    else if day == b.end && b.endHalf == Am then [Slot(day, Am)]
    else [Slot(day, Am), Slot(day, Pm)]
  }

  lemma HalvesAreCovered(b: Block, day: Day)
    requires b.start <= day <= b.end
    ensures forall s :: s in Halves(b, day) <==> s.day == day && Covers(b, s)
  {
    forall s ensures s in Halves(b, day) <==> s.day == day && Covers(b, s) {
      assert s == Slot(s.day, s.half) && (s.half == Am || s.half == Pm);
    }
  }

  /** The half-days of a block inside a window, day by day. */
  method HalfDays(b: Block, from: Day, to: Day) returns (slots: seq<Slot>)
    ensures forall s :: s in slots <==> from <= s.day <= to && Covers(b, s)
  {
    slots := [];
    if to < from {
      return;
    }
    var day := if b.start < from then from else b.start;
    var stop := if to < b.end then to else b.end;
    while day <= stop
      invariant from <= day && b.start <= day
      invariant forall s :: s in slots <==> from <= s.day < day && s.day <= to && Covers(b, s)
      decreases stop - day
    {
      HalvesAreCovered(b, day);
      slots := slots + Halves(b, day);
      day := day + 1;
    }
  }

  // ---- what recurs --------------------------------------------------------------------

  /** On one weekday, every week or every so many; a zero counts as one. */
  datatype Recurrence = Recurrence(weekday: Option<int>, halves: seq<Half>, everyWeeks: nat)

  function StepDays(r: Recurrence): (step: nat)
    ensures step > 0
  {
    7 * if r.everyWeeks == 0 then 1 else r.everyWeeks
  }

  /** The first such weekday on or after the anchor. */
  function Anchor(weekday: int, start: Day): (first: Day)
    ensures start <= first < start + 7 && (first - weekday) % 7 == 0
  {
    start + (weekday - start) % 7
  }

  predicate Recurs(r: Recurrence, start: Day, end: Option<Day>, day: Day) {
    && r.weekday.Some?
    && Anchor(r.weekday.value, start) <= day && (end.Some? ==> day <= end.value)
    && (day - Anchor(r.weekday.value, start)) % StepDays(r) == 0
  }

  /**
   * It recurs on its weekday, from the first such day on or after the start, every week or every so many, up to the
   * last day if there is one.
   */
  lemma RecursWhen(r: Recurrence, start: Day, end: Option<Day>, first: Day, day: Day)
    requires r.weekday.Some? && start <= first < start + 7 && first % 7 == r.weekday.value % 7
    ensures Recurs(r, start, end, day) <==>
      && first <= day && (end.Some? ==> day <= end.value)
      && (day - first) % (if r.everyWeeks > 1 then 7 * r.everyWeeks else 7) == 0
  {
    assert first == Anchor(r.weekday.value, start);
  }

  /** The first, the one a step later, and so on. */
  predicate Falls(first: Day, step: nat, day: Day)
    requires step > 0
    decreases day - first
  {
    day == first || (first < day && Falls(first, step, day - step))
  }

  /** Those are the days a whole number of steps from the first. */
  lemma {:induction false} FallsWhen(first: Day, step: nat, day: Day)
    requires step > 0
    ensures Falls(first, step, day) <==> first <= day && (day - first) % step == 0
    decreases day - first
  {
    if first < day {
      if day < first + step {
        Remainder(day - first, step);
      } else {
        FallsWhen(first, step, day - step);
        OneStepLess(day - first, step);
      }
    } else if first == day {
      Remainder(0, step);
    }
  }

  lemma Remainder(a: nat, step: nat)
    requires a < step
    ensures a % step == a
  {}

  lemma OneStepLess(a: nat, step: nat)
    requires 0 < step <= a
    ensures (a - step) % step == a % step
  {
    var q := a / step;
    assert a == step * q + a % step;
    assert a - step == step * (q - 1) + a % step;
    var p := (a - step) / step;
    assert a - step == step * p + (a - step) % step;
    assert step * ((q - 1) - p) == (a - step) % step - a % step;
    TimesAtLeast(step, (q - 1) - p);
  }

  lemma TimesAtLeast(step: int, k: int)
    requires step > 0
    ensures k >= 1 ==> step * k >= step
    ensures k <= -1 ==> step * k <= -step
  {
    if k >= 1 {
      assert step * (k - 1) >= 0;
      assert step * k == step * (k - 1) + step;
    } else if k <= -1 {
      assert step * (-k - 1) >= 0;
      assert step * k == -(step * (-k - 1)) - step;
    }
  }

  lemma {:induction false} NoneBetween(first: Day, step: nat, a: Day, b: Day)
    requires step > 0 && Falls(first, step, a) && a < b < a + step
    ensures !Falls(first, step, b)
    decreases a - first
  {
    if a > first {
      NoneBetween(first, step, a - step, b - step);
    }
  }

  /** So many whole steps that this many days are reached. */
  function StepsFor(days: nat, step: nat): nat
    requires step > 0
  {
    (days + step - 1) / step
  }

  lemma StepsReach(days: nat, step: nat)
    requires step > 0
    ensures days <= StepsFor(days, step) * step < days + step
  {
    var q := StepsFor(days, step);
    assert days + step - 1 == q * step + (days + step - 1) % step;
  }

  lemma {:induction false} FallsAfter(first: Day, step: nat, n: nat)
    requires step > 0
    ensures Falls(first, step, first + n * step)
  {
    if n > 0 {
      FallsAfter(first, step, n - 1);
      assert first + n * step - step == first + (n - 1) * step;
      assert n * step >= step;
    }
  }

  /** The first occurrence from this day on, computed and not walked to from the anchor. */
  method FirstFrom(first: Day, step: nat, from: Day) returns (day: Day)
    requires step > 0
    ensures first <= day && from <= day && Falls(first, step, day)
    ensures forall d :: from <= d < day ==> !Falls(first, step, d)
  {
    day := first;
    if first < from {
      var skipped := StepsFor(from - first, step);
      StepsReach(from - first, step);
      FallsAfter(first, step, skipped);
      day := first + skipped * step;
      forall d | from <= d < day ensures !Falls(first, step, d) {
        NoneBetween(first, step, day - step, d);
      }
    }
  }

  /** The occurrences inside a window. */
  method RecurringDays(r: Recurrence, start: Day, end: Option<Day>, from: Day, to: Day) returns (days: seq<Day>)
    ensures forall d :: d in days <==> from <= d <= to && Recurs(r, start, end, d)
  {
    days := [];
    if r.weekday.None? {
      return;
    }
    var first, step := Anchor(r.weekday.value, start), StepDays(r);
    var stop := if end.Some? && end.value < to then end.value else to;
    days := Walk(first, step, from, stop);
    forall d ensures Falls(first, step, d) <==> first <= d && (d - first) % step == 0 {
      FallsWhen(first, step, d);
    }
  }

  method Walk(first: Day, step: nat, from: Day, stop: Day) returns (days: seq<Day>)
    requires step > 0
    ensures forall d :: d in days <==> from <= d <= stop && Falls(first, step, d)
  {
    days := [];
    var day := FirstFrom(first, step, from);
    while day <= stop
      invariant first <= day && from <= day && Falls(first, step, day)
      invariant forall d :: d in days ==> from <= d < day && d <= stop && Falls(first, step, d)
      invariant forall d :: from <= d < day && Falls(first, step, d) ==> d in days
      decreases stop - day
    {
      days := days + [day];
      forall d | day < d < day + step ensures !Falls(first, step, d) {
        NoneBetween(first, step, day, d);
      }
      day := day + step;
    }
  }

  // ---- stored holidays ----------------------------------------------------------------

  datatype Entry = Entry(calendar: Id, words: string, block: Block)

  /** This member works this day of this holiday. */
  datatype Exception = Exception(member: Id, entry: Id, day: Day)

  // ---- the identity of a holiday ------------------------------------------------------

  datatype Key = Key(words: string, block: Block)

  function Lower(c: char): char {
    if 'A' <= c <= 'Z' then c - 'A' + 'a' else c
  }

  predicate IsSpace(c: char) {
    c == ' ' || 0x09 <= c as int <= 0x0d || 0x1c <= c as int <= 0x1f
  }

  /** Case aside, the words separated by single spaces. */
  function Fold(words: string, begun: bool := false, gap: bool := false): string {
    if words == "" then ""
    else if IsSpace(words[0]) then Fold(words[1..], begun, begun)
    else (if gap then " " else "") + [Lower(words[0])] + Fold(words[1..], true, false)
  }

  // What the folding leaves out of account, and nothing else: case, and how much space there is where.

  predicate Begun(words: string, begun: bool) {
    begun || exists i :: 0 <= i < |words| && !IsSpace(words[i])
  }

  function GapAfter(words: string, begun: bool, gap: bool): bool {
    if words == "" then gap
    else if IsSpace(words[0]) then GapAfter(words[1..], begun, begun)
    else GapAfter(words[1..], true, false)
  }

  lemma {:induction false} FoldInParts(a: string, b: string, begun: bool, gap: bool)
    ensures Fold(a + b, begun, gap) == Fold(a, begun, gap) + Fold(b, Begun(a, begun), GapAfter(a, begun, gap))
  {
    if a == "" {
      assert a + b == b;
    } else {
      assert (a + b)[1..] == a[1..] + b;
      if IsSpace(a[0]) {
        FoldInParts(a[1..], b, begun, begun);
        assert Begun(a, begun) == Begun(a[1..], begun) by {
          assert forall i :: 0 < i < |a| ==> a[i] == a[1..][i - 1];
        }
      } else {
        FoldInParts(a[1..], b, true, false);
        assert Begun(a, begun) && Begun(a[1..], true);
      }
    }
  }

  /** White space, as far as ASCII goes. */
  ghost predicate Space(c: char) {
    c == ' ' || c == '\t' || c == '\n' || c == '\r' || c as int in {0x0b, 0x0c, 0x1c, 0x1d, 0x1e, 0x1f}
  }

  ghost predicate Blank(s: string) {
    forall i :: 0 <= i < |s| ==> Space(s[i])
  }

  lemma {:induction false} FoldOfBlank(s: string, begun: bool, gap: bool)
    requires Blank(s)
    ensures Fold(s, begun, gap) == "" && Begun(s, begun) == begun
    ensures GapAfter(s, begun, gap) == if s == "" then gap else begun
  {
    if s != "" {
      FoldOfBlank(s[1..], begun, begun);
    }
  }

  /** How much white space there is between two words, or around them, makes no difference. */
  lemma FoldIgnoresSpace(a: string, blank: string, b: string)
    requires Blank(blank) && blank != ""
    ensures Fold(a + blank + b) == Fold(a + " " + b)
    ensures Fold(blank + a) == Fold(a) == Fold(a + blank)
  {
    FoldInParts(a + blank, b, false, false);
    FoldInParts(a + " ", b, false, false);
    GapInParts(a, blank);
    GapInParts(a, " ");
    FoldInParts(blank, a, false, false);
    FoldOfBlank(blank, false, false);
  }

  lemma {:induction false} GapInParts(a: string, blank: string)
    requires Blank(blank) && blank != ""
    ensures Fold(a + blank) == Fold(a)
    ensures Begun(a + blank, false) == Begun(a, false)
    ensures GapAfter(a + blank, false, false) == Begun(a, false)
  {
    FoldInParts(a, blank, false, false);
    FoldOfBlank(blank, Begun(a, false), GapAfter(a, false, false));
    GapsInParts(a, blank, false, false);
    forall i | 0 <= i < |a| ensures (a + blank)[i] == a[i] {}
    forall i | |a| <= i < |a + blank| ensures IsSpace((a + blank)[i]) {
      assert (a + blank)[i] == blank[i - |a|];
    }
  }

  lemma {:induction false} GapsInParts(a: string, b: string, begun: bool, gap: bool)
    ensures GapAfter(a + b, begun, gap) == GapAfter(b, Begun(a, begun), GapAfter(a, begun, gap))
  {
    if a == "" {
      assert a + b == b;
    } else {
      assert (a + b)[1..] == a[1..] + b;
      if IsSpace(a[0]) {
        GapsInParts(a[1..], b, begun, begun);
        assert Begun(a, begun) == Begun(a[1..], begun) by {
          assert forall i :: 0 < i < |a| ==> a[i] == a[1..][i - 1];
        }
      } else {
        GapsInParts(a[1..], b, true, false);
        assert Begun(a, begun) && Begun(a[1..], true);
      }
    }
  }

  /** The same letters, in either case. */
  ghost predicate SameButCase(a: string, b: string) {
    |a| == |b| && forall i :: 0 <= i < |a| ==>
      || a[i] == b[i]
      || ('A' <= a[i] <= 'Z' && b[i] as int == a[i] as int + 32)
      || ('A' <= b[i] <= 'Z' && a[i] as int == b[i] as int + 32)
  }

  lemma {:induction false} FoldIgnoresCase(a: string, b: string, begun: bool, gap: bool)
    requires SameButCase(a, b)
    ensures Fold(a, begun, gap) == Fold(b, begun, gap)
  {
    if a != "" {
      FoldIgnoresCase(a[1..], b[1..], if IsSpace(a[0]) then begun else true, IsSpace(a[0]) && begun);
    }
  }

  /** In lower case, with single spaces between words and none around them. */
  ghost predicate Tidy(s: string) {
    forall i :: 0 <= i < |s| ==> TidyAt(s, i)
  }

  ghost predicate TidyAt(s: string, i: int)
    requires 0 <= i < |s|
  {
    !('A' <= s[i] <= 'Z') && (Space(s[i]) ==> s[i] == ' ' && i + 1 < |s| && !Space(s[i + 1]))
  }

  lemma TidySuffix(s: string, k: nat)
    requires Tidy(s) && k <= |s|
    ensures Tidy(s[k..])
  {
    forall i | 0 <= i < |s[k..]| ensures TidyAt(s[k..], i) {
      assert TidyAt(s, k + i);
    }
  }

  lemma {:induction false} TidyIsFolded(s: string)
    requires Tidy(s)
    ensures Fold(s, true, false) == s
    decreases |s|
  {
    if s != "" {
      SpaceIs(s[0]);
      assert TidyAt(s, 0);
      if IsSpace(s[0]) {
        SpaceIs(s[1]);
        assert TidyAt(s, 1);
        assert s == " " + [s[1]] + s[2..];
        assert s[1..][1..] == s[2..];
        TidySuffix(s, 2);
        TidyIsFolded(s[2..]);
      } else {
        TidySuffix(s, 1);
        TidyIsFolded(s[1..]);
      }
    }
  }

  lemma SpaceIs(c: char)
    ensures IsSpace(c) <==> Space(c)
  {}

  /** Words already in lower case and singly spaced are their own fold: nothing else is left out of account. */
  lemma FoldKeepsTidy(s: string)
    requires Tidy(s) && (s != "" ==> !Space(s[0]))
    ensures Fold(s) == s
  {
    if s != "" {
      SpaceIs(s[0]);
      assert TidyAt(s, 0);
      TidySuffix(s, 1);
      TidyIsFolded(s[1..]);
    }
  }
}
