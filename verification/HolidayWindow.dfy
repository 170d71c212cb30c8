/**
 * Replacing a window of a holiday calendar, and adding entries to one
 * (backend/app/routes/holiday_calendars.py, backend/app/schemas/holiday.py).
 */
module HolidayWindow {
  import opened Wrappers
  import opened Holidays

  const MAX_ENTRIES := 2000

  /** An entry as a client sends it. */
  datatype Fields = Fields(words: string, block: Block)

  /** No member works a day of a holiday twice: exceptions form a set. */
  datatype Db = Db(calendars: set<Id>, entries: map<Id, Entry>, exceptions: set<Exception>)

  datatype Error = NotFound | Invalid | LimitReached | Integrity

  datatype Counts = Counts(created: nat, deleted: nat, kept: nat, dropped: nat)

  predicate Valid(db: Db) {
    forall x :: x in db.exceptions ==> x.entry in db.entries
  }

  function KeyOfFields(f: Fields): Key {
    Key(Fold(f.words), f.block)
  }

  function KeyOfEntry(e: Entry): Key {
    Key(Fold(e.words), e.block)
  }

  predicate Coherent(b: Block) {
    b.start <= b.end && !(b.start == b.end && b.startHalf == Pm && b.endHalf == Am)
  }

  predicate Acceptable(from: Day, to: Day, items: seq<Fields>) {
    && |items| <= MAX_ENTRIES && from <= to
    && forall f :: f in items ==> Coherent(f.block) && from <= f.block.start <= to
  }

  function Keys(items: seq<Fields>): set<Key> {
    set f | f in items :: KeyOfFields(f)
  }

  /** The first item of each key not seen before, in order. */
  function Firsts(seen: set<Key>, items: seq<Fields>): (r: seq<Fields>)
    ensures |r| <= |items|
  {
    if items == [] then []
    else
      var r, last := Firsts(seen, items[..|items| - 1]), items[|items| - 1];
      if KeyOfFields(last) in seen + Keys(r) then r else r + [last]
  }

  predicate Distinct(items: seq<Fields>) {
    forall i, j :: 0 <= i < j < |items| ==> KeyOfFields(items[i]) != KeyOfFields(items[j])
  }

  lemma {:induction false} FirstsAre(seen: set<Key>, items: seq<Fields>)
    ensures Distinct(Firsts(seen, items)) && Keys(Firsts(seen, items)) == Keys(items) - seen
    ensures forall f :: f in Firsts(seen, items) ==> f in items
  {
    if items != [] {
      var before, last := items[..|items| - 1], items[|items| - 1];
      FirstsAre(seen, before);
      assert items == before + [last];
      assert Keys(items) == Keys(before) + {KeyOfFields(last)};
      var r := Firsts(seen, before);
      assert Keys(r + [last]) == Keys(r) + {KeyOfFields(last)};
      if KeyOfFields(last) !in Keys(r) {
        forall i | 0 <= i < |r| ensures KeyOfFields(r[i]) != KeyOfFields(last) {
          assert r[i] in r;
        }
      }
    }
  }

  // ---- replacing a window -------------------------------------------------------------

  function Doomed(db: Db, calendar: Id, from: Day, to: Day): set<Id> {
    set e | e in db.entries && db.entries[e].calendar == calendar && from <= db.entries[e].block.start <= to
  }

  function InCalendar(db: Db, calendar: Id): set<Id> {
    set e | e in db.entries && db.entries[e].calendar == calendar
  }

  function ExceptionsOn(db: Db, es: set<Id>): set<Exception> {
    set x | x in db.exceptions && x.entry in es
  }

  /** The exceptions on these entries whose holiday comes back. */
  function Carried(db: Db, es: set<Id>, keys: set<Key>): set<Exception> {
    set x | x in db.exceptions && x.entry in es && x.entry in db.entries && KeyOfEntry(db.entries[x.entry]) in keys
  }

  /** Two exceptions of one member on one day would land on the same new entry. */
  ghost predicate Collide(db: Db, x: Exception, y: Exception) {
    && x.entry in db.entries && y.entry in db.entries && x != y
    && x.member == y.member && x.day == y.day
    && KeyOfEntry(db.entries[x.entry]) == KeyOfEntry(db.entries[y.entry])
  }

  ghost predicate Clash(db: Db, carried: set<Exception>) {
    exists x, y :: x in carried && y in carried && Collide(db, x, y)
  }

  /** The id given to each key. */
  function Placed(incoming: seq<Fields>, ids: seq<Id>): map<Key, Id>
    requires |incoming| <= |ids|
    decreases |incoming|
  {
    if incoming == [] then map[]
    else
      var n := |incoming| - 1;
      Placed(incoming[..n], ids)[KeyOfFields(incoming[n]) := ids[n]]
  }

  function Created(calendar: Id, incoming: seq<Fields>, ids: seq<Id>): map<Id, Entry>
    requires |incoming| <= |ids|
    decreases |incoming|
  {
    if incoming == [] then map[]
    else
      var n := |incoming| - 1;
      Created(calendar, incoming[..n], ids)[ids[n] := Entry(calendar, incoming[n].words, incoming[n].block)]
  }

  predicate AllDifferent(ids: seq<Id>) {
    forall i, j :: 0 <= i < j < |ids| ==> ids[i] != ids[j]
  }

  function Moved(db: Db, carried: set<Exception>, placed: map<Key, Id>): set<Exception> {
    set x | x in carried && x.entry in db.entries && KeyOfEntry(db.entries[x.entry]) in placed ::
      Exception(x.member, placed[KeyOfEntry(db.entries[x.entry])], x.day)
  }

  function CountsFor(db: Db, calendar: Id, from: Day, to: Day, items: seq<Fields>): Counts {
    var doomed, incoming := Doomed(db, calendar, from, to), Firsts({}, items);
    var carried := Carried(db, doomed, Keys(items));
    Counts(|incoming|, |doomed|, |carried|, |ExceptionsOn(db, doomed) - carried|)
  }

  ghost predicate FreshIds(db: Db, ids: seq<Id>) {
    AllDifferent(ids) && forall i :: 0 <= i < |ids| ==> ids[i] !in db.entries
  }

  ghost function Refusal(db: Db, calendar: Id, from: Day, to: Day, items: seq<Fields>): Option<Error> {
    var doomed, incoming := Doomed(db, calendar, from, to), Firsts({}, items);
    if !Acceptable(from, to, items) then Some(Invalid)
    else if calendar !in db.calendars then Some(NotFound)
    else if |InCalendar(db, calendar)| - |doomed| + |incoming| > MAX_ENTRIES then Some(LimitReached)
    else if Clash(db, Carried(db, doomed, Keys(items))) then Some(Integrity)
    else None
  }

  /** The window emptied, these entries in it, and the carried exceptions on them. */
  function Replaced(
      db: Db, doomed: set<Id>, created: map<Id, Entry>, carried: set<Exception>, placed: map<Key, Id>): Db
  {
    db.(entries := (db.entries - doomed) + created,
        exceptions := (db.exceptions - ExceptionsOn(db, doomed)) + Moved(db, carried, placed))
  }

  ghost function Replace(db: Db, calendar: Id, from: Day, to: Day, items: seq<Fields>, ids: seq<Id>): Result<Db, Error>
    requires |items| <= |ids| && AllDifferent(ids)
  {
    var refusal := Refusal(db, calendar, from, to, items);
    if refusal.Some? then Err(refusal.value)
    else
      var doomed, incoming := Doomed(db, calendar, from, to), Firsts({}, items);
      Ok(Replaced(db, doomed, Created(calendar, incoming, ids), Carried(db, doomed, Keys(items)),
        Placed(incoming, ids)))
  }

  // ---- what was created ---------------------------------------------------------------

  lemma {:induction false} CreatedCount(calendar: Id, incoming: seq<Fields>, ids: seq<Id>)
    requires |incoming| <= |ids| && AllDifferent(ids)
    ensures |Created(calendar, incoming, ids)| == |incoming|
    decreases |incoming|
  {
    if incoming != [] {
      var n := |incoming| - 1;
      CreatedCount(calendar, incoming[..n], ids);
      if ids[n] in Created(calendar, incoming[..n], ids) {
        var i := CreatedIs(calendar, incoming[..n], ids, ids[n]);
      }
    }
  }

  lemma {:induction false} PlacedIs(incoming: seq<Fields>, ids: seq<Id>, k: Key) returns (i: nat)
    requires |incoming| <= |ids| && (k in Keys(incoming) || k in Placed(incoming, ids))
    ensures i < |incoming| && KeyOfFields(incoming[i]) == k
    ensures k in Placed(incoming, ids) && Placed(incoming, ids)[k] == ids[i]
    decreases |incoming|
  {
    var n := |incoming| - 1;
    if KeyOfFields(incoming[n]) == k {
      i := n;
    } else {
      assert incoming == incoming[..n] + [incoming[n]];
      i := PlacedIs(incoming[..n], ids, k);
    }
  }

  lemma {:induction false} CreatedIs(calendar: Id, incoming: seq<Fields>, ids: seq<Id>, e: Id) returns (i: nat)
    requires |incoming| <= |ids| && AllDifferent(ids) && e in Created(calendar, incoming, ids)
    ensures i < |incoming| && ids[i] == e
    ensures Created(calendar, incoming, ids)[e] == Entry(calendar, incoming[i].words, incoming[i].block)
    decreases |incoming|
  {
    var n := |incoming| - 1;
    if ids[n] == e {
      i := n;
    } else {
      i := CreatedIs(calendar, incoming[..n], ids, e);
    }
  }

  lemma {:induction false} CreatedAt(calendar: Id, incoming: seq<Fields>, ids: seq<Id>, i: nat)
    requires i < |incoming| <= |ids| && AllDifferent(ids)
    ensures ids[i] in Created(calendar, incoming, ids)
    ensures Created(calendar, incoming, ids)[ids[i]] == Entry(calendar, incoming[i].words, incoming[i].block)
    decreases |incoming|
  {
    var n := |incoming| - 1;
    if i < n {
      CreatedAt(calendar, incoming[..n], ids, i);
    }
  }

  /** Each key has one new entry and each new entry its key. */
  ghost predicate Matched(placed: map<Key, Id>, created: map<Id, Entry>, keys: set<Key>, calendar: Id) {
    && placed.Keys == keys
    && (forall k :: k in keys ==> k in placed && placed[k] in created && KeyOfEntry(created[placed[k]]) == k)
    && (forall e :: e in created ==>
          KeyOfEntry(created[e]) in placed && placed[KeyOfEntry(created[e])] == e && created[e].calendar == calendar)
  }

  lemma KeyHasEntry(calendar: Id, incoming: seq<Fields>, ids: seq<Id>, k: Key)
    requires |incoming| <= |ids| && AllDifferent(ids) && k in Keys(incoming)
    ensures
      var placed, created := Placed(incoming, ids), Created(calendar, incoming, ids);
      k in placed && placed[k] in created && KeyOfEntry(created[placed[k]]) == k
  {
    var i := PlacedIs(incoming, ids, k);
    CreatedAt(calendar, incoming, ids, i);
  }

  lemma EntryHasKey(calendar: Id, incoming: seq<Fields>, ids: seq<Id>, e: Id)
    requires |incoming| <= |ids| && Distinct(incoming) && AllDifferent(ids) && e in Created(calendar, incoming, ids)
    ensures
      var placed, created := Placed(incoming, ids), Created(calendar, incoming, ids);
      KeyOfEntry(created[e]) in placed && placed[KeyOfEntry(created[e])] == e && created[e].calendar == calendar
  {
    var i := CreatedIs(calendar, incoming, ids, e);
    assert KeyOfFields(incoming[i]) in Keys(incoming);
    var j := PlacedIs(incoming, ids, KeyOfFields(incoming[i]));
  }

  lemma {:induction false} CreatedAre(calendar: Id, incoming: seq<Fields>, ids: seq<Id>)
    requires |incoming| <= |ids| && Distinct(incoming) && AllDifferent(ids)
    ensures Matched(Placed(incoming, ids), Created(calendar, incoming, ids), Keys(incoming), calendar)
  {
    var placed, created := Placed(incoming, ids), Created(calendar, incoming, ids);
    forall k | k in placed ensures k in Keys(incoming) {
      var i := PlacedIs(incoming, ids, k);
    }
    forall k | k in Keys(incoming) ensures k in placed && placed[k] in created && KeyOfEntry(created[placed[k]]) == k {
      KeyHasEntry(calendar, incoming, ids, k);
    }
    forall e | e in created
      ensures KeyOfEntry(created[e]) in placed && placed[KeyOfEntry(created[e])] == e && created[e].calendar == calendar
    {
      EntryHasKey(calendar, incoming, ids, e);
    }
  }

  // ---- what a replacement leaves ------------------------------------------------------

  lemma CreatedFit(db: Db, calendar: Id, from: Day, to: Day, items: seq<Fields>, ids: seq<Id>)
    requires |items| <= |ids| && FreshIds(db, ids) && Acceptable(from, to, items)
    ensures
      var placed, created := Placed(Firsts({}, items), ids), Created(calendar, Firsts({}, items), ids);
      && Matched(placed, created, Keys(items), calendar) && NewIds(db, created)
      && (forall e :: e in created ==> from <= created[e].block.start <= to)
      && |created.Keys| == |Firsts({}, items)|
  {
    FirstsAre({}, items);
    var incoming := Firsts({}, items);
    var created := Created(calendar, incoming, ids);
    CreatedAre(calendar, incoming, ids);
    CreatedCount(calendar, incoming, ids);
    AllNew(db, calendar, items, ids);
    forall e | e in created ensures from <= created[e].block.start <= to {
      var i := CreatedIs(calendar, incoming, ids, e);
      assert incoming[i] in items;
    }
    assert |created.Keys| == |created|;
  }

  /** A success, taken apart: what was created, under which key, and the counts reported. */
  lemma PartsOfSuccess(db: Db, calendar: Id, from: Day, to: Day, items: seq<Fields>, ids: seq<Id>)
    returns (placed: map<Key, Id>, created: map<Id, Entry>)
    requires |items| <= |ids| && FreshIds(db, ids) && Replace(db, calendar, from, to, items, ids).Ok?
    ensures Matched(placed, created, Keys(items), calendar) && NewIds(db, created)
    ensures forall e :: e in created ==> from <= created[e].block.start <= to
    ensures created == Created(calendar, Firsts({}, items), ids) && |created.Keys| == |Firsts({}, items)|
    ensures
      var doomed := Doomed(db, calendar, from, to);
      var carried := Carried(db, doomed, Keys(items));
      && !Clash(db, carried)
      && Replace(db, calendar, from, to, items, ids).value == Replaced(db, doomed, created, carried, placed)
      && CountsFor(db, calendar, from, to, items)
         == Counts(|created.Keys|, |doomed|, |carried|, |ExceptionsOn(db, doomed) - carried|)
  {
    placed, created := Placed(Firsts({}, items), ids), Created(calendar, Firsts({}, items), ids);
    CreatedFit(db, calendar, from, to, items, ids);
  }

  ghost predicate NewIds(db: Db, created: map<Id, Entry>) {
    forall e :: e in created ==> e !in db.entries
  }

  lemma AllNew(db: Db, calendar: Id, items: seq<Fields>, ids: seq<Id>)
    requires |items| <= |ids| && FreshIds(db, ids)
    ensures NewIds(db, Created(calendar, Firsts({}, items), ids))
  {
    forall e | e in Created(calendar, Firsts({}, items), ids) ensures e !in db.entries {
      var i := CreatedIs(calendar, Firsts({}, items), ids, e);
    }
  }

  /** The window holds exactly one entry for each incoming key, and nothing outside it has changed. */
  lemma WindowParts(db: Db, calendar: Id, from: Day, to: Day, items: seq<Fields>, ids: seq<Id>)
    requires Valid(db) && |items| <= |ids| && FreshIds(db, ids) && Replace(db, calendar, from, to, items, ids).Ok?
    ensures
      var after := Replace(db, calendar, from, to, items, ids).value;
      var doomed, now := Doomed(db, calendar, from, to), Doomed(after, calendar, from, to);
      && (set e | e in now :: KeyOfEntry(after.entries[e])) == Keys(items)
      && (forall e, f :: e in now && f in now && KeyOfEntry(after.entries[e]) == KeyOfEntry(after.entries[f]) ==>
        e == f)
      && (forall e :: e in db.entries && e !in doomed ==> e in after.entries && after.entries[e] == db.entries[e])
      && (forall e :: e in after.entries && e !in now ==> e in db.entries && e !in doomed)
      && (forall x: Exception :: x.entry !in doomed && x.entry !in now ==>
        (x in after.exceptions <==> x in db.exceptions))
  {
    var placed, created := PartsOfSuccess(db, calendar, from, to, items, ids);
    WindowIsCreated(db, calendar, from, to, Keys(items), created, placed);
  }

  /** An entry of the calendar that starts on a day of the window. */
  ghost predicate Within(db: Db, e: Id, calendar: Id, from: Day, to: Day) {
    e in db.entries && db.entries[e].calendar == calendar && from <= db.entries[e].block.start <= to
  }

  /** The entry is this item, whatever case or spacing its words are in. */
  ghost predicate Matches(entry: Entry, f: Fields) {
    Fold(entry.words) == Fold(f.words) && entry.block == f.block
  }

  ghost predicate SameHoliday(a: Entry, b: Entry) {
    Fold(a.words) == Fold(b.words) && a.block == b.block
  }

  lemma WindowEntries(db: Db, calendar: Id, from: Day, to: Day, items: seq<Fields>, ids: seq<Id>)
    returns (placed: map<Key, Id>, created: map<Id, Entry>)
    requires |items| <= |ids| && FreshIds(db, ids) && Replace(db, calendar, from, to, items, ids).Ok?
    ensures Matched(placed, created, Keys(items), calendar) && NewIds(db, created)
    ensures
      var after := Replace(db, calendar, from, to, items, ids).value;
      && (forall e :: Within(after, e, calendar, from, to) <==> e in created)
      && (forall e :: e in created ==> e in after.entries && after.entries[e] == created[e])
  {
    placed, created := PartsOfSuccess(db, calendar, from, to, items, ids);
    WindowIsCreated(db, calendar, from, to, Keys(items), created, placed);
    var after := Replace(db, calendar, from, to, items, ids).value;
    DoomedIsWithin(after, calendar, from, to);
    assert after.entries == (db.entries - Doomed(db, calendar, from, to)) + created;
  }

  lemma DoomedIsWithin(db: Db, calendar: Id, from: Day, to: Day)
    ensures forall e :: Within(db, e, calendar, from, to) <==> e in Doomed(db, calendar, from, to)
  {}

  /** The window has an entry for each item. */
  lemma WindowHasEach(db: Db, calendar: Id, from: Day, to: Day, items: seq<Fields>, ids: seq<Id>, f: Fields)
    requires |items| <= |ids| && FreshIds(db, ids) && Replace(db, calendar, from, to, items, ids).Ok? && f in items
    ensures
      var after := Replace(db, calendar, from, to, items, ids).value;
      exists e :: Within(after, e, calendar, from, to) && Matches(after.entries[e], f)
  {
    var placed, created := WindowEntries(db, calendar, from, to, items, ids);
    assert KeyOfFields(f) in Keys(items);
    assert placed[KeyOfFields(f)] in created;
  }

  /** It has no entry besides, none that was there before and no two that are the same holiday. */
  lemma WindowHasOnly(db: Db, calendar: Id, from: Day, to: Day, items: seq<Fields>, ids: seq<Id>, e: Id)
    requires |items| <= |ids| && FreshIds(db, ids) && Replace(db, calendar, from, to, items, ids).Ok?
    requires Within(Replace(db, calendar, from, to, items, ids).value, e, calendar, from, to)
    ensures
      var after := Replace(db, calendar, from, to, items, ids).value;
      && e !in db.entries && (exists f :: f in items && Matches(after.entries[e], f))
      && forall d :: Within(after, d, calendar, from, to) && SameHoliday(after.entries[d], after.entries[e]) ==> d == e
  {
    var placed, created := WindowEntries(db, calendar, from, to, items, ids);
    assert KeyOfEntry(created[e]) in Keys(items);
    KeyIsMatched(created[e], items);
  }

  /** Every entry of another calendar, or starting before the window or after it, is as it was, with its exceptions. */
  lemma OutsideStays(db: Db, calendar: Id, from: Day, to: Day, items: seq<Fields>, ids: seq<Id>, e: Id)
    requires Valid(db) && |items| <= |ids| && FreshIds(db, ids) && Replace(db, calendar, from, to, items, ids).Ok?
    requires e in db.entries
    requires db.entries[e].calendar != calendar || db.entries[e].block.start < from || to < db.entries[e].block.start
    ensures
      var after := Replace(db, calendar, from, to, items, ids).value;
      && e in after.entries && after.entries[e] == db.entries[e]
      && forall member, day ::
           Exception(member, e, day) in after.exceptions <==> Exception(member, e, day) in db.exceptions
  {
    WindowParts(db, calendar, from, to, items, ids);
  }

  /** And nothing else is new: an entry outside the window was there before, outside it too. */
  lemma NothingElseAppears(db: Db, calendar: Id, from: Day, to: Day, items: seq<Fields>, ids: seq<Id>, e: Id)
    requires Valid(db) && |items| <= |ids| && FreshIds(db, ids) && Replace(db, calendar, from, to, items, ids).Ok?
    ensures
      var after := Replace(db, calendar, from, to, items, ids).value;
      && after.calendars == db.calendars
      && (e in after.entries && !Within(after, e, calendar, from, to) ==>
            e in db.entries && !Within(db, e, calendar, from, to))
  {
    WindowParts(db, calendar, from, to, items, ids);
  }

  /** The window as a set, and the exceptions on its entries. */
  lemma CountsAre(db: Db, calendar: Id, from: Day, to: Day, items: seq<Fields>)
    ensures
      var window := set e | e in db.entries && Within(db, e, calendar, from, to);
      var back := set x | x in db.exceptions && x.entry in window
        && exists f :: f in items && Matches(db.entries[x.entry], f);
      var gone := set x | x in db.exceptions && x.entry in window
        && forall f :: f in items ==> !Matches(db.entries[x.entry], f);
      CountsFor(db, calendar, from, to, items) == Counts(|Keys(items)|, |window|, |back|, |gone|)
  {
    var doomed, keys := Doomed(db, calendar, from, to), Keys(items);
    FirstsCount(items);
    DoomedIs(db, calendar, from, to);
    forall x | x in db.exceptions && x.entry in doomed
      ensures KeyOfEntry(db.entries[x.entry]) in keys <==>
        exists f :: f in items && Matches(db.entries[x.entry], f)
    {
      KeyIsMatched(db.entries[x.entry], items);
    }
    assert Carried(db, doomed, keys) == set x | x in db.exceptions && x.entry in doomed
      && exists f :: f in items && Matches(db.entries[x.entry], f);
    assert ExceptionsOn(db, doomed) - Carried(db, doomed, keys) == set x | x in db.exceptions && x.entry in doomed
      && forall f :: f in items ==> !Matches(db.entries[x.entry], f);
  }

  /** An item that no entry can be: it ends before it starts, or starts outside the window. */
  ghost predicate Unacceptable(f: Fields, from: Day, to: Day) {
    || f.block.end < f.block.start
    || (f.block.start == f.block.end && f.block.startHalf == Pm && f.block.endHalf == Am)
    || f.block.start < from || to < f.block.start
  }

  /** Two exceptions of one member on one day, in the window, on holidays that come back as one. */
  ghost predicate SamePlace(db: Db, calendar: Id, from: Day, to: Day, items: seq<Fields>, x: Exception, y: Exception) {
    && x in db.exceptions && y in db.exceptions && x.member == y.member && x.day == y.day && x.entry != y.entry
    && Within(db, x.entry, calendar, from, to) && Within(db, y.entry, calendar, from, to)
    && SameHoliday(db.entries[x.entry], db.entries[y.entry])
    && exists f :: f in items && Matches(db.entries[x.entry], f)
  }

  /** Why a replacement is refused, in the order it is looked at. */
  lemma ReplacementRefusedWhen(db: Db, calendar: Id, from: Day, to: Day, items: seq<Fields>)
    requires Valid(db)
    ensures
      var window := set e | e in db.entries && Within(db, e, calendar, from, to);
      var all := set e | e in db.entries && db.entries[e].calendar == calendar;
      Refusal(db, calendar, from, to, items) ==
        if |items| > 2000 || to < from || exists f :: f in items && Unacceptable(f, from, to) then Some(Invalid)
        else if calendar !in db.calendars then Some(NotFound)
        else if |all| - |window| + |Keys(items)| > 2000 then Some(LimitReached)
        else if exists x, y :: SamePlace(db, calendar, from, to, items, x, y) then Some(Integrity)
        else None
  {
    FirstsCount(items);
    DoomedIs(db, calendar, from, to);
    InCalendarIs(db, calendar);
    AcceptableWhen(from, to, items);
    ClashWhen(db, calendar, from, to, items);
  }

  lemma FirstsCount(items: seq<Fields>)
    ensures |Firsts({}, items)| == |Keys(items)|
  {
    FirstsAre({}, items);
    DistinctCount(Firsts({}, items));
  }

  lemma DoomedIs(db: Db, calendar: Id, from: Day, to: Day)
    ensures Doomed(db, calendar, from, to) == set e | e in db.entries && Within(db, e, calendar, from, to)
  {}

  lemma InCalendarIs(db: Db, calendar: Id)
    ensures InCalendar(db, calendar) == set e | e in db.entries && db.entries[e].calendar == calendar
  {}

  lemma AcceptableWhen(from: Day, to: Day, items: seq<Fields>)
    ensures Acceptable(from, to, items) <==>
      !(|items| > 2000 || to < from || exists f :: f in items && Unacceptable(f, from, to))
  {
    forall f: Fields ensures Coherent(f.block) && from <= f.block.start <= to <==> !Unacceptable(f, from, to) {}
  }

  lemma ClashWhen(db: Db, calendar: Id, from: Day, to: Day, items: seq<Fields>)
    requires Valid(db)
    ensures Clash(db, Carried(db, Doomed(db, calendar, from, to), Keys(items))) <==>
      exists x, y :: SamePlace(db, calendar, from, to, items, x, y)
  {
    var carried := Carried(db, Doomed(db, calendar, from, to), Keys(items));
    if x, y :| x in carried && y in carried && Collide(db, x, y) {
      KeyIsMatched(db.entries[x.entry], items);
      assert SamePlace(db, calendar, from, to, items, x, y);
    }
    if x, y :| SamePlace(db, calendar, from, to, items, x, y) {
      KeyIsMatched(db.entries[x.entry], items);
      assert x in carried && y in carried && Collide(db, x, y);
    }
  }

  lemma KeyIsMatched(entry: Entry, items: seq<Fields>)
    ensures KeyOfEntry(entry) in Keys(items) <==> exists f :: f in items && Matches(entry, f)
  {
    if f :| f in items && Matches(entry, f) {
      assert KeyOfFields(f) in Keys(items);
    }
  }

  lemma KeysOneMore(before: seq<Fields>, last: Fields)
    ensures Keys(before + [last]) == Keys(before) + {KeyOfFields(last)}
  {}

  lemma DistinctPrefix(before: seq<Fields>, last: Fields)
    requires Distinct(before + [last])
    ensures Distinct(before) && KeyOfFields(last) !in Keys(before)
  {
    var items := before + [last];
    forall i, j | 0 <= i < j < |before| ensures KeyOfFields(before[i]) != KeyOfFields(before[j]) {
      assert KeyOfFields(items[i]) != KeyOfFields(items[j]);
    }
    forall i | 0 <= i < |before| ensures KeyOfFields(before[i]) != KeyOfFields(last) {
      assert KeyOfFields(items[i]) != KeyOfFields(items[|before|]);
    }
  }

  lemma {:induction false} DistinctCount(items: seq<Fields>)
    requires Distinct(items)
    ensures |Keys(items)| == |items|
  {
    if items != [] {
      var before, last := items[..|items| - 1], items[|items| - 1];
      assert items == before + [last];
      DistinctPrefix(before, last);
      DistinctCount(before);
      KeysOneMore(before, last);
    }
  }

  lemma WindowIsCreated(
      db: Db, calendar: Id, from: Day, to: Day, keys: set<Key>, created: map<Id, Entry>, placed: map<Key, Id>)
    requires Matched(placed, created, keys, calendar)
    requires forall e :: e in created ==> from <= created[e].block.start <= to && e !in db.entries
    ensures
      var doomed := Doomed(db, calendar, from, to);
      var after := Replaced(db, doomed, created, Carried(db, doomed, keys), placed);
      var now := Doomed(after, calendar, from, to);
      && now == created.Keys
      && (set e | e in now :: KeyOfEntry(after.entries[e])) == keys
      && (forall x: Exception :: x.entry !in doomed && x.entry !in now ==>
        (x in after.exceptions <==> x in db.exceptions))
  {
    var doomed := Doomed(db, calendar, from, to);
    var carried := Carried(db, doomed, keys);
    var after := Replaced(db, doomed, created, carried, placed);
    var now := Doomed(after, calendar, from, to);
    assert now == created.Keys;
    forall k | k in keys ensures k in (set e | e in now :: KeyOfEntry(after.entries[e])) {
      assert placed[k] in now;
    }
    forall x | x in Moved(db, carried, placed) ensures x.entry in created {
      MovedIsPlaced(db, carried, placed, x);
    }
  }

  lemma MovedIsPlaced(db: Db, carried: set<Exception>, placed: map<Key, Id>, x: Exception)
    requires x in Moved(db, carried, placed)
    ensures exists k :: k in placed && placed[k] == x.entry
  {
    var y :| y in carried && y.entry in db.entries && KeyOfEntry(db.entries[y.entry]) in placed
      && x == Exception(y.member, placed[KeyOfEntry(db.entries[y.entry])], y.day);
  }

  // ---- exceptions across a replacement ------------------------------------------------

  /** The member works that day of that holiday, by an exception on one of these entries. */
  ghost predicate Works(db: Db, es: set<Id>, k: Key, member: Id, day: Day) {
    exists e :: e in es && e in db.entries && KeyOfEntry(db.entries[e]) == k
      && Exception(member, e, day) in db.exceptions
  }

  lemma ExceptionsOnNew(
      db: Db, calendar: Id, doomed: set<Id>, keys: set<Key>, created: map<Id, Entry>, placed: map<Key, Id>)
    requires Valid(db) && Matched(placed, created, keys, calendar) && NewIds(db, created)
    ensures
      var carried := Carried(db, doomed, keys);
      ExceptionsOn(Replaced(db, doomed, created, carried, placed), created.Keys) == Moved(db, carried, placed)
  {
    var carried := Carried(db, doomed, keys);
    forall x | x in Moved(db, carried, placed) ensures x.entry in created {
      MovedIsPlaced(db, carried, placed, x);
    }
  }

  lemma WorksAsBefore(
      db: Db, calendar: Id, doomed: set<Id>, keys: set<Key>, created: map<Id, Entry>, placed: map<Key, Id>,
      k: Key, member: Id, day: Day)
    requires Valid(db) && Matched(placed, created, keys, calendar) && NewIds(db, created) && k in keys
    ensures
      var after := Replaced(db, doomed, created, Carried(db, doomed, keys), placed);
      Works(after, created.Keys, k, member, day) <==> Works(db, doomed, k, member, day)
  {
    var carried := Carried(db, doomed, keys);
    var after := Replaced(db, doomed, created, carried, placed);
    ExceptionsOnNew(db, calendar, doomed, keys, created, placed);
    if Works(db, doomed, k, member, day) {
      var e :| e in doomed && e in db.entries && KeyOfEntry(db.entries[e]) == k
        && Exception(member, e, day) in db.exceptions;
      assert Exception(member, e, day) in carried;
      assert Exception(member, placed[k], day) in Moved(db, carried, placed);
      assert after.entries[placed[k]] == created[placed[k]];
    }
    if Works(after, created.Keys, k, member, day) {
      var e :| e in created && e in after.entries && KeyOfEntry(after.entries[e]) == k
        && Exception(member, e, day) in after.exceptions;
      assert Exception(member, e, day) in ExceptionsOn(after, created.Keys);
      var x :| x in carried && x.entry in db.entries && KeyOfEntry(db.entries[x.entry]) in placed
        && Exception(member, e, day) == Exception(x.member, placed[KeyOfEntry(db.entries[x.entry])], x.day);
      assert Exception(member, x.entry, day) == x;
    }
  }

  lemma {:induction false} MovedCount(db: Db, carried: set<Exception>, placed: map<Key, Id>)
    requires forall x :: x in carried ==> x.entry in db.entries && KeyOfEntry(db.entries[x.entry]) in placed
    requires forall k, l :: k in placed && l in placed && placed[k] == placed[l] ==> k == l
    requires !Clash(db, carried)
    ensures |Moved(db, carried, placed)| == |carried|
    decreases |carried|
  {
    if carried == {} {
      assert Moved(db, carried, placed) == {};
    } else {
      var x :| x in carried;
      var rest := carried - {x};
      var moved := Exception(x.member, placed[KeyOfEntry(db.entries[x.entry])], x.day);
      assert !Clash(db, rest);
      MovedCount(db, rest, placed);
      assert Moved(db, carried, placed) == Moved(db, rest, placed) + {moved};
      if moved in Moved(db, rest, placed) {
        var y :| y in rest && moved == Exception(y.member, placed[KeyOfEntry(db.entries[y.entry])], y.day);
        assert Collide(db, x, y);
      }
    }
  }

  lemma PartsOfSet(es: set<Exception>, part: set<Exception>)
    requires part <= es
    ensures |part| + |es - part| == |es|
  {
    assert es == part + (es - part);
  }

  /**
   * Every exception on a replaced entry is counted as kept or dropped. The kept ones are the exceptions now in the
   * window: each member works the days they worked of every holiday that came back.
   */
  lemma ExceptionsSurvive(db: Db, calendar: Id, from: Day, to: Day, items: seq<Fields>, ids: seq<Id>)
    requires Valid(db) && |items| <= |ids| && FreshIds(db, ids) && Replace(db, calendar, from, to, items, ids).Ok?
    ensures
      var after := Replace(db, calendar, from, to, items, ids).value;
      var doomed, now := Doomed(db, calendar, from, to), Doomed(after, calendar, from, to);
      var counts := CountsFor(db, calendar, from, to, items);
      && counts.kept + counts.dropped == |ExceptionsOn(db, doomed)|
      && counts.kept == |ExceptionsOn(after, now)|
      && SameWorkers(after, now, db, doomed, Keys(items))
      && Valid(after)
  {
    var placed, created := PartsOfSuccess(db, calendar, from, to, items, ids);
    var doomed, keys := Doomed(db, calendar, from, to), Keys(items);
    PartsOfSet(ExceptionsOn(db, doomed), Carried(db, doomed, keys));
    SurviveInto(db, calendar, from, to, keys, created, placed);
  }

  /** The same members work the same days of these holidays, on the one set of entries as on the other. */
  ghost predicate SameWorkers(a: Db, es: set<Id>, b: Db, fs: set<Id>, keys: set<Key>) {
    forall k, member, day :: k in keys ==> (Works(a, es, k, member, day) <==> Works(b, fs, k, member, day))
  }

  lemma SurviveInto(
      db: Db, calendar: Id, from: Day, to: Day, keys: set<Key>, created: map<Id, Entry>, placed: map<Key, Id>)
    requires Valid(db) && Matched(placed, created, keys, calendar) && NewIds(db, created)
    requires forall e :: e in created ==> from <= created[e].block.start <= to
    requires !Clash(db, Carried(db, Doomed(db, calendar, from, to), keys))
    ensures
      var doomed := Doomed(db, calendar, from, to);
      var after := Replaced(db, doomed, created, Carried(db, doomed, keys), placed);
      var now := Doomed(after, calendar, from, to);
      && |Carried(db, doomed, keys)| == |ExceptionsOn(after, now)|
      && SameWorkers(after, now, db, doomed, keys)
      && Valid(after)
  {
    var doomed := Doomed(db, calendar, from, to);
    var carried := Carried(db, doomed, keys);
    var after := Replaced(db, doomed, created, carried, placed);
    WindowIsCreated(db, calendar, from, to, keys, created, placed);
    ExceptionsOnNew(db, calendar, doomed, keys, created, placed);
    MovedCount(db, carried, placed);
    forall k, member, day | k in keys
      ensures Works(after, created.Keys, k, member, day) <==> Works(db, doomed, k, member, day)
    {
      WorksAsBefore(db, calendar, doomed, keys, created, placed, k, member, day);
    }
    forall x | x in after.exceptions ensures x.entry in after.entries {
      if x in Moved(db, carried, placed) {
        MovedIsPlaced(db, carried, placed, x);
      }
    }
  }

  // ---- when a replacement fails, and doing it twice -----------------------------------

  ghost predicate DistinctKeys(db: Db, es: set<Id>)
    requires es <= db.entries.Keys
  {
    forall e, f :: e in es && f in es && KeyOfEntry(db.entries[e]) == KeyOfEntry(db.entries[f]) ==> e == f
  }

  /** With the window's stored keys distinct, no two carried exceptions can collide. */
  lemma DistinctKeysNeverClash(db: Db, doomed: set<Id>, keys: set<Key>)
    requires doomed <= db.entries.Keys && DistinctKeys(db, doomed)
    ensures !Clash(db, Carried(db, doomed, keys))
  {
    forall x, y | x in Carried(db, doomed, keys) && y in Carried(db, doomed, keys) ensures !Collide(db, x, y) {}
  }

  lemma CollisionFails(
      db: Db, calendar: Id, from: Day, to: Day, items: seq<Fields>, x: Exception, y: Exception)
    requires Acceptable(from, to, items) && calendar in db.calendars
    requires |InCalendar(db, calendar)| + |items| <= MAX_ENTRIES
    requires x in db.exceptions && y in db.exceptions && Collide(db, x, y)
    requires x.entry in Doomed(db, calendar, from, to) && y.entry in Doomed(db, calendar, from, to)
    requires KeyOfEntry(db.entries[x.entry]) in Keys(items)
    ensures Refusal(db, calendar, from, to, items) == Some(Integrity)
  {
    assert x in Carried(db, Doomed(db, calendar, from, to), Keys(items));
    assert y in Carried(db, Doomed(db, calendar, from, to), Keys(items));
  }

  /** One holiday entered twice, a member working both: replacing the window by that holiday fails. */
  lemma TwiceEnteredFails(entry: Entry, member: Id)
    requires Coherent(entry.block)
    ensures
      var db := Db({entry.calendar}, map[1 := entry, 2 := entry],
                   {Exception(member, 1, entry.block.start), Exception(member, 2, entry.block.start)});
      Valid(db) && Refusal(db, entry.calendar, entry.block.start, entry.block.start, [Fields(entry.words, entry.block)])
                   == Some(Integrity)
  {
    var day := entry.block.start;
    var x, y := Exception(member, 1, day), Exception(member, 2, day);
    var db := Db({entry.calendar}, map[1 := entry, 2 := entry], {x, y});
    var f := Fields(entry.words, entry.block);
    assert f in [f] && KeyOfFields(f) in Keys([f]);
    assert InCalendar(db, entry.calendar) == {1, 2};
    CollisionFails(db, entry.calendar, day, day, [f], x, y);
  }

  lemma SwappedCount<T>(all: set<T>, gone: set<T>, added: set<T>)
    requires gone <= all && added !! all
    ensures |(all - gone) + added| == |all| - |gone| + |added|
  {
    assert all == (all - gone) + gone;
  }

  /** A calendar's entries after a merge of maps, one entry at a time. */
  lemma CalendarAfter(db: Db, calendar: Id, doomed: set<Id>, created: map<Id, Entry>, after: Db, e: Id)
    requires forall e :: e in created ==> created[e].calendar == calendar
    requires after.entries == (db.entries - doomed) + created
    ensures e in InCalendar(after, calendar) <==> (e in InCalendar(db, calendar) && e !in doomed) || e in created
  {}

  lemma CalendarSet(db: Db, calendar: Id, doomed: set<Id>, created: map<Id, Entry>, after: Db)
    requires forall e :: e in created ==> created[e].calendar == calendar
    requires after.entries == (db.entries - doomed) + created
    ensures InCalendar(after, calendar) == (InCalendar(db, calendar) - doomed) + created.Keys
  {
    forall e
      ensures e in InCalendar(after, calendar) <==> e in (InCalendar(db, calendar) - doomed) + created.Keys
    {
      CalendarAfter(db, calendar, doomed, created, after, e);
    }
  }

  lemma DoomedInside(db: Db, calendar: Id, from: Day, to: Day, created: map<Id, Entry>)
    requires NewIds(db, created)
    ensures Doomed(db, calendar, from, to) <= InCalendar(db, calendar) && created.Keys !! InCalendar(db, calendar)
  {}

  lemma CalendarCount(db: Db, calendar: Id, from: Day, to: Day, created: map<Id, Entry>, after: Db)
    requires NewIds(db, created) && forall e :: e in created ==> created[e].calendar == calendar
    requires after.entries == (db.entries - Doomed(db, calendar, from, to)) + created
    ensures |InCalendar(after, calendar)| ==
      |InCalendar(db, calendar)| - |Doomed(db, calendar, from, to)| + |created.Keys|
  {
    CalendarSet(db, calendar, Doomed(db, calendar, from, to), created, after);
    DoomedInside(db, calendar, from, to, created);
    SwappedCount(InCalendar(db, calendar), Doomed(db, calendar, from, to), created.Keys);
  }

  /**
   * Repeating a replacement that succeeded succeeds and drops nothing: as many entries, the same holiday under each
   * key, and the same members working the same days.
   */
  lemma ReplacingTwice(db: Db, calendar: Id, from: Day, to: Day, items: seq<Fields>, ids: seq<Id>, more: seq<Id>)
    requires Valid(db) && |items| <= |ids| && FreshIds(db, ids) && Replace(db, calendar, from, to, items, ids).Ok?
    requires |items| <= |more| && FreshIds(Replace(db, calendar, from, to, items, ids).value, more)
    ensures
      var once := Replace(db, calendar, from, to, items, ids).value;
      var again := Replace(once, calendar, from, to, items, more);
      var counts := CountsFor(once, calendar, from, to, items);
      var was := Doomed(once, calendar, from, to);
      && again.Ok? && counts.dropped == 0 && counts.kept == CountsFor(db, calendar, from, to, items).kept
      && counts.created == counts.deleted
      && (var now := Doomed(again.value, calendar, from, to);
          && SameByKey(once, was, again.value, now)
          && (forall k, member, day ::
                Works(again.value, now, k, member, day) <==> Works(once, was, k, member, day)))
  {
    var once := Replace(db, calendar, from, to, items, ids).value;
    RepeatSucceeds(db, calendar, from, to, items, ids, more);
    var again := Replace(once, calendar, from, to, items, more).value;
    var was, now := Doomed(once, calendar, from, to), Doomed(again, calendar, from, to);
    ExceptionsSurvive(db, calendar, from, to, items, ids);
    ExceptionsSurvive(once, calendar, from, to, items, more);
    WindowParts(db, calendar, from, to, items, ids);
    WindowParts(once, calendar, from, to, items, more);
    forall k, member, day ensures Works(again, now, k, member, day) <==> Works(once, was, k, member, day) {
      if Works(again, now, k, member, day) {
        var e :| e in now && KeyOfEntry(again.entries[e]) == k;
        assert k in (set e | e in now :: KeyOfEntry(again.entries[e]));
      }
      if Works(once, was, k, member, day) {
        var e :| e in was && KeyOfEntry(once.entries[e]) == k;
        assert k in (set e | e in was :: KeyOfEntry(once.entries[e]));
      }
    }
    SameHolidays(db, once, calendar, from, to, items, ids, more);
  }

  lemma RepeatSucceeds(db: Db, calendar: Id, from: Day, to: Day, items: seq<Fields>, ids: seq<Id>, more: seq<Id>)
    requires Valid(db) && |items| <= |ids| && FreshIds(db, ids) && Replace(db, calendar, from, to, items, ids).Ok?
    requires |items| <= |more| && AllDifferent(more)
    ensures
      var once := Replace(db, calendar, from, to, items, ids).value;
      var counts := CountsFor(once, calendar, from, to, items);
      && Replace(once, calendar, from, to, items, more).Ok?
      && counts.dropped == 0 && counts.kept == |ExceptionsOn(once, Doomed(once, calendar, from, to))|
      && counts.created == counts.deleted
  {
    var placed, created := PartsOfSuccess(db, calendar, from, to, items, ids);
    WindowIsItsOwnRepeat(db, calendar, from, to, Keys(items), created, placed);
    NotRefusedAgain(Replace(db, calendar, from, to, items, ids).value, calendar, from, to, items);
  }

  lemma NotRefusedAgain(once: Db, calendar: Id, from: Day, to: Day, items: seq<Fields>)
    requires Acceptable(from, to, items) && calendar in once.calendars && |InCalendar(once, calendar)| <= MAX_ENTRIES
    requires |Doomed(once, calendar, from, to)| == |Firsts({}, items)|
    requires
      var was := Doomed(once, calendar, from, to);
      && !Clash(once, Carried(once, was, Keys(items))) && Carried(once, was, Keys(items)) == ExceptionsOn(once, was)
      && ExceptionsOn(once, was) - Carried(once, was, Keys(items)) == {}
    ensures Refusal(once, calendar, from, to, items) == None
    ensures
      var counts := CountsFor(once, calendar, from, to, items);
      && counts.dropped == 0 && counts.kept == |ExceptionsOn(once, Doomed(once, calendar, from, to))|
      && counts.created == counts.deleted
  {}

  lemma WindowIsItsOwnRepeat(
      db: Db, calendar: Id, from: Day, to: Day, keys: set<Key>, created: map<Id, Entry>, placed: map<Key, Id>)
    requires Matched(placed, created, keys, calendar) && NewIds(db, created)
    requires forall e :: e in created ==> from <= created[e].block.start <= to
    ensures
      var doomed := Doomed(db, calendar, from, to);
      var once := Replaced(db, doomed, created, Carried(db, doomed, keys), placed);
      var was := Doomed(once, calendar, from, to);
      && !Clash(once, Carried(once, was, keys))
      && Carried(once, was, keys) == ExceptionsOn(once, was)
      && ExceptionsOn(once, was) - Carried(once, was, keys) == {}
      && was == created.Keys
      && |InCalendar(once, calendar)| == |InCalendar(db, calendar)| - |doomed| + |created.Keys|
  {
    var doomed := Doomed(db, calendar, from, to);
    var once := Replaced(db, doomed, created, Carried(db, doomed, keys), placed);
    WindowIsCreated(db, calendar, from, to, keys, created, placed);
    CalendarCount(db, calendar, from, to, created, once);
    CreatedStand(once, created, placed, keys, calendar);
    DistinctKeysNeverClash(once, created.Keys, keys);
  }

  /** Where the created entries stand, they have distinct keys, and every exception on them comes back. */
  lemma CreatedStand(once: Db, created: map<Id, Entry>, placed: map<Key, Id>, keys: set<Key>, calendar: Id)
    requires Matched(placed, created, keys, calendar)
    requires forall e :: e in created ==> e in once.entries && once.entries[e] == created[e]
    ensures DistinctKeys(once, created.Keys)
    ensures Carried(once, created.Keys, keys) == ExceptionsOn(once, created.Keys)
    ensures ExceptionsOn(once, created.Keys) - Carried(once, created.Keys, keys) == {}
  {}

  lemma SameHolidays(
      db: Db, once: Db, calendar: Id, from: Day, to: Day, items: seq<Fields>, ids: seq<Id>, more: seq<Id>)
    requires |items| <= |ids| && FreshIds(db, ids)
    requires Replace(db, calendar, from, to, items, ids) == Ok(once)
    requires |items| <= |more| && FreshIds(once, more) && Replace(once, calendar, from, to, items, more).Ok?
    ensures
      var again := Replace(once, calendar, from, to, items, more).value;
      SameByKey(once, Doomed(once, calendar, from, to), again, Doomed(again, calendar, from, to))
  {
    var again := Replace(once, calendar, from, to, items, more).value;
    FirstsAre({}, items);
    WindowEntryIs(db, once, calendar, from, to, items, ids);
    WindowEntryIs(once, again, calendar, from, to, items, more);
    SpelledAlike(Firsts({}, items), calendar, once, Doomed(once, calendar, from, to), again,
      Doomed(again, calendar, from, to));
  }

  /** Entries of these two sets with one key are the same holiday, label and all. */
  ghost predicate SameByKey(a: Db, es: set<Id>, b: Db, fs: set<Id>)
    requires es <= a.entries.Keys && fs <= b.entries.Keys
  {
    forall e, f ::
      e in es && f in fs && KeyOfEntry(a.entries[e]) == KeyOfEntry(b.entries[f]) ==> a.entries[e] == b.entries[f]
  }

  lemma SpelledAlike(incoming: seq<Fields>, calendar: Id, a: Db, es: set<Id>, b: Db, fs: set<Id>)
    requires Distinct(incoming) && es <= a.entries.Keys && fs <= b.entries.Keys
    requires forall e :: e in es ==> Spells(incoming, calendar, a.entries[e])
    requires forall f :: f in fs ==> Spells(incoming, calendar, b.entries[f])
    ensures SameByKey(a, es, b, fs)
  {
    forall e, f | e in es && f in fs && KeyOfEntry(a.entries[e]) == KeyOfEntry(b.entries[f])
      ensures a.entries[e] == b.entries[f]
    {
      var i :| 0 <= i < |incoming| && a.entries[e] == Entry(calendar, incoming[i].words, incoming[i].block);
      var j :| 0 <= j < |incoming| && b.entries[f] == Entry(calendar, incoming[j].words, incoming[j].block);
      assert KeyOfFields(incoming[i]) == KeyOfFields(incoming[j]);
    }
  }

  /** The entry is one of these items in this calendar. */
  ghost predicate Spells(incoming: seq<Fields>, calendar: Id, entry: Entry) {
    exists i :: 0 <= i < |incoming| && entry == Entry(calendar, incoming[i].words, incoming[i].block)
  }

  lemma {:induction false} WindowEntryIs(
      db: Db, after: Db, calendar: Id, from: Day, to: Day, items: seq<Fields>, ids: seq<Id>)
    requires |items| <= |ids| && FreshIds(db, ids) && Replace(db, calendar, from, to, items, ids) == Ok(after)
    ensures forall e :: e in Doomed(after, calendar, from, to) ==> Spells(Firsts({}, items), calendar, after.entries[e])
  {
    var placed, created := PartsOfSuccess(db, calendar, from, to, items, ids);
    WindowIsCreated(db, calendar, from, to, Keys(items), created, placed);
    forall e | e in created ensures Spells(Firsts({}, items), calendar, created[e]) {
      var i := CreatedIs(calendar, Firsts({}, items), ids, e);
    }
    assert forall e :: e in created ==> after.entries[e] == created[e];
  }

  // ---- adding entries -----------------------------------------------------------------

  function KeysIn(db: Db, calendar: Id): set<Key> {
    set e | e in db.entries && db.entries[e].calendar == calendar :: KeyOfEntry(db.entries[e])
  }

  /** Adding entries skips what the calendar already has, so adding the same ones again adds nothing. */
  lemma {:induction false} NothingFirstTwice(seen: set<Key>, items: seq<Fields>)
    requires Keys(items) <= seen
    ensures Firsts(seen, items) == []
  {
    if items != [] {
      assert items[|items| - 1] in items;
      assert Keys(items[..|items| - 1]) <= Keys(items);
      NothingFirstTwice(seen, items[..|items| - 1]);
    }
  }

  /** After adding, the calendar has every item's holiday, everything it had, and nothing else. */
  lemma {:induction false} AddingUnites(db: Db, calendar: Id, items: seq<Fields>, ids: seq<Id>)
    requires |items| <= |ids| && FreshIds(db, ids)
    ensures
      var created := Created(calendar, Firsts(KeysIn(db, calendar), items), ids);
      var after := db.(entries := db.entries + created);
      KeysIn(after, calendar) == KeysIn(db, calendar) + Keys(items)
  {
    var seen := KeysIn(db, calendar);
    var novel := Firsts(seen, items);
    FirstsAre(seen, items);
    CreatedAre(calendar, novel, ids);
    var placed, created := Placed(novel, ids), Created(calendar, novel, ids);
    var after := db.(entries := db.entries + created);
    forall e | e in created ensures e !in db.entries {
      var i := CreatedIs(calendar, novel, ids, e);
    }
    UnionOfKeys(db, calendar, created, placed, Keys(items) - seen);
    assert seen + (Keys(items) - seen) == seen + Keys(items);
  }

  lemma UnionOfKeys(db: Db, calendar: Id, created: map<Id, Entry>, placed: map<Key, Id>, keys: set<Key>)
    requires Matched(placed, created, keys, calendar) && NewIds(db, created)
    ensures KeysIn(db.(entries := db.entries + created), calendar) == KeysIn(db, calendar) + keys
  {
    var after := db.(entries := db.entries + created);
    forall k | k in KeysIn(db, calendar) + keys ensures k in KeysIn(after, calendar) {
      if k in keys {
        assert after.entries[placed[k]] == created[placed[k]];
      } else {
        var e :| e in db.entries && db.entries[e].calendar == calendar && KeyOfEntry(db.entries[e]) == k;
        assert after.entries[e] == db.entries[e];
      }
    }
  }

  // ---- the routes ---------------------------------------------------------------------

  lemma FirstsOneMore(seen: set<Key>, items: seq<Fields>, i: nat)
    requires i < |items|
    ensures seen + Keys(items[..i + 1]) == (seen + Keys(items[..i])) + {KeyOfFields(items[i])}
    ensures Firsts(seen, items[..i + 1]) ==
      if KeyOfFields(items[i]) in seen + Keys(items[..i]) then Firsts(seen, items[..i])
      else Firsts(seen, items[..i]) + [items[i]]
  {
    var before := items[..i];
    assert items[..i + 1] == before + [items[i]];
    assert items[..i + 1][..i] == before;
    FirstsAre(seen, before);
    KeysOneMore(before, items[i]);
  }

  /** The items whose key is new, kept in order, and all the keys seen by then. */
  method FirstOfEach(seen: set<Key>, items: seq<Fields>) returns (novel: seq<Fields>, keys: set<Key>)
    ensures novel == Firsts(seen, items) && keys == seen + Keys(items)
  {
    novel, keys := [], seen;
    assert items[..0] == [];
    for i := 0 to |items|
      invariant novel == Firsts(seen, items[..i])
      invariant keys == seen + Keys(items[..i])
    {
      FirstsOneMore(seen, items, i);
      if KeyOfFields(items[i]) !in keys {
        keys := keys + {KeyOfFields(items[i])};
        novel := novel + [items[i]];
      }
    }
    assert items[..|items|] == items;
  }

  method AddRows(base: map<Id, Entry>, calendar: Id, novel: seq<Fields>, ids: seq<Id>)
    returns (entries: map<Id, Entry>, placed: map<Key, Id>)
    requires |novel| <= |ids|
    ensures entries == base + Created(calendar, novel, ids) && placed == Placed(novel, ids)
  {
    entries, placed := base, map[];
    assert novel[..0] == [];
    for i := 0 to |novel|
      invariant entries == base + Created(calendar, novel[..i], ids) && placed == Placed(novel[..i], ids)
    {
      assert novel[..i + 1][..i] == novel[..i];
      entries := entries[ids[i] := Entry(calendar, novel[i].words, novel[i].block)];
      placed := placed[KeyOfFields(novel[i]) := ids[i]];
    }
    assert novel[..|novel|] == novel;
  }

  /** The exceptions on these entries that carry this key. */
  function OnKey(db: Db, es: set<Id>, k: Key): set<Exception> {
    Carried(db, es, {k})
  }

  function ListAt(lists: map<Key, set<Exception>>, k: Key): set<Exception> {
    if k in lists then lists[k] else {}
  }

  lemma OnKeyOneMore(db: Db, es: set<Id>, e: Id, k: Key)
    requires e in db.entries
    ensures OnKey(db, es + {e}, k) ==
      if KeyOfEntry(db.entries[e]) == k then OnKey(db, es, k) + ExceptionsOn(db, {e}) else OnKey(db, es, k)
  {}

  /** Under each key, the exceptions on these entries that carry it. */
  ghost predicate Lists(db: Db, lists: map<Key, set<Exception>>, es: set<Id>) {
    forall k :: ListAt(lists, k) == OnKey(db, es, k)
  }

  lemma ListsOneMore(db: Db, lists: map<Key, set<Exception>>, es: set<Id>, e: Id)
    requires Lists(db, lists, es) && e in db.entries
    ensures
      var k := KeyOfEntry(db.entries[e]);
      Lists(db, lists[k := ListAt(lists, k) + ExceptionsOn(db, {e})], es + {e})
  {
    var k := KeyOfEntry(db.entries[e]);
    var after := lists[k := ListAt(lists, k) + ExceptionsOn(db, {e})];
    forall l ensures ListAt(after, l) == OnKey(db, es + {e}, l) {
      OnKeyOneMore(db, es, e, l);
      assert ListAt(lists, l) == OnKey(db, es, l);
    }
  }

  method ByKey(db: Db, doomed: set<Id>) returns (lists: map<Key, set<Exception>>)
    requires doomed <= db.entries.Keys
    ensures Lists(db, lists, doomed)
  {
    lists := map[];
    ghost var done: set<Id> := {};
    var todo := doomed;
    while todo != {}
      invariant done !! todo && done + todo == doomed
      invariant Lists(db, lists, done)
      decreases |todo|
    {
      var e :| e in todo;
      var k := KeyOfEntry(db.entries[e]);
      ListsOneMore(db, lists, done, e);
      lists := lists[k := ListAt(lists, k) + ExceptionsOn(db, {e})];
      todo, done := todo - {e}, done + {e};
    }
    assert done == doomed;
  }

  lemma CarriedOneMore(db: Db, doomed: set<Id>, keys: set<Key>, k: Key)
    requires k !in keys
    ensures |Carried(db, doomed, keys + {k})| == |Carried(db, doomed, keys)| + |OnKey(db, doomed, k)|
  {
    assert Carried(db, doomed, keys + {k}) == Carried(db, doomed, keys) + OnKey(db, doomed, k);
    assert Carried(db, doomed, keys) !! OnKey(db, doomed, k);
  }

  /** Kept under the keys that come back, dropped under the others. */
  method Tally(
      db: Db, doomed: set<Id>, lists: map<Key, set<Exception>>, keys: set<Key>)
    returns (kept: nat, dropped: nat)
    requires Valid(db) && doomed <= db.entries.Keys
    requires Lists(db, lists, doomed)
    ensures kept == |Carried(db, doomed, keys)| && dropped == |ExceptionsOn(db, doomed) - Carried(db, doomed, keys)|
  {
    kept := SumOf(db, doomed, lists, lists.Keys * keys);
    dropped := SumOf(db, doomed, lists, lists.Keys - keys);
    TalliedAll(db, doomed, lists, keys, lists.Keys * keys, lists.Keys - keys);
  }

  method SumOf(db: Db, doomed: set<Id>, lists: map<Key, set<Exception>>, chosen: set<Key>) returns (total: nat)
    requires chosen <= lists.Keys && Lists(db, lists, doomed)
    ensures total == |Carried(db, doomed, chosen)|
  {
    total := 0;
    ghost var done: set<Key> := {};
    var todo := chosen;
    assert Carried(db, doomed, {}) == {};
    while todo != {}
      invariant done !! todo && done + todo == chosen
      invariant total == |Carried(db, doomed, done)|
      decreases |todo|
    {
      var k :| k in todo;
      assert lists[k] == ListAt(lists, k) == OnKey(db, doomed, k);
      CarriedOneMore(db, doomed, done, k);
      total := total + |lists[k]|;
      todo, done := todo - {k}, done + {k};
    }
    assert done == chosen;
  }

  lemma TalliedAll(
      db: Db, doomed: set<Id>, lists: map<Key, set<Exception>>, keys: set<Key>, good: set<Key>, bad: set<Key>)
    requires Valid(db) && doomed <= db.entries.Keys
    requires Lists(db, lists, doomed)
    requires good + bad == lists.Keys && good <= keys && bad !! keys
    ensures Carried(db, doomed, good) == Carried(db, doomed, keys)
    ensures Carried(db, doomed, bad) == ExceptionsOn(db, doomed) - Carried(db, doomed, keys)
  {
    forall x | x in ExceptionsOn(db, doomed) ensures KeyOfEntry(db.entries[x.entry]) in lists {
      var k := KeyOfEntry(db.entries[x.entry]);
      assert x in OnKey(db, doomed, k);
      assert ListAt(lists, k) == OnKey(db, doomed, k);
    }
  }

  /** Every row has a place, each place belongs to one key, and none is taken yet. */
  ghost predicate Insertable(db: Db, base: set<Exception>, carried: set<Exception>, placed: map<Key, Id>) {
    && (forall x :: x in carried ==> x.entry in db.entries && KeyOfEntry(db.entries[x.entry]) in placed)
    && (forall k, l :: k in placed && l in placed && placed[k] == placed[l] ==> k == l)
    && (forall x, k :: x in base && k in placed ==> x.entry != placed[k])
  }

  /** The rows land one by one; two that come out the same break the unique constraint. */
  method InsertCarried(db: Db, base: set<Exception>, carried: set<Exception>, placed: map<Key, Id>)
    returns (session: set<Exception>, clash: bool)
    requires Insertable(db, base, carried, placed)
    ensures clash <==> Clash(db, carried)
    ensures session == base + Moved(db, carried, placed)
  {
    session, clash := base, false;
    ghost var done: set<Exception> := {};
    var todo := carried;
    while todo != {}
      invariant done !! todo && done + todo == carried
      invariant session == base + Moved(db, done, placed)
      invariant clash <==> Clash(db, done)
      decreases |todo|
    {
      var x :| x in todo;
      var row := Exception(x.member, placed[KeyOfEntry(db.entries[x.entry])], x.day);
      InsertOneMore(db, base, carried, done, x, placed, session);
      clash := clash || row in session;
      session := session + {row};
      todo, done := todo - {x}, done + {x};
    }
    assert done == carried;
  }

  lemma InsertOneMore(
      db: Db, base: set<Exception>, carried: set<Exception>, done: set<Exception>, x: Exception, placed: map<Key, Id>,
      session: set<Exception>)
    requires Insertable(db, base, carried, placed) && done <= carried && x in carried && x !in done
    requires session == base + Moved(db, done, placed)
    ensures
      var row := Exception(x.member, placed[KeyOfEntry(db.entries[x.entry])], x.day);
      && session + {row} == base + Moved(db, done + {x}, placed)
      && (Clash(db, done + {x}) <==> Clash(db, done) || row in session)
  {
    var row := Exception(x.member, placed[KeyOfEntry(db.entries[x.entry])], x.day);
    if row in Moved(db, done, placed) {
      var y :| y in done && row == Exception(y.member, placed[KeyOfEntry(db.entries[y.entry])], y.day);
      assert Collide(db, x, y);
    }
    if Clash(db, done + {x}) && !Clash(db, done) {
      var y, z :| y in done + {x} && z in done + {x} && Collide(db, y, z);
      var other := if y == x then z else y;
      assert other in done;
      assert row == Exception(other.member, placed[KeyOfEntry(db.entries[other.entry])], other.day);
    }
  }

  class HolidayCalendars {
    var db: Db

    constructor (db: Db)
      requires Valid(db)
      ensures this.db == db
    {
      this.db := db;
    }

    /** Nothing is changed by a dry run, nor by a request that is refused or fails half way. */
    method ReplaceEntries(calendar: Id, from: Day, to: Day, items: seq<Fields>, dryRun: bool, ids: seq<Id>)
      returns (r: Result<Counts, Error>)
      requires Valid(db) && |items| <= |ids| && FreshIds(db, ids)
      modifies this
      ensures
        var refusal := Refusal(old(db), calendar, from, to, items);
        r == if refusal.Some? && !(dryRun && refusal.value == Integrity) then Err(refusal.value)
             else Ok(CountsFor(old(db), calendar, from, to, items))
      ensures db == if dryRun || r.Err? then old(db) else Replace(old(db), calendar, from, to, items, ids).value
      ensures Valid(db)
    {
      if !Acceptable(from, to, items) {
        return Err(Invalid);
      }
      if calendar !in db.calendars {
        return Err(NotFound);
      }
      var doomed := Doomed(db, calendar, from, to);
      var incoming, keys := FirstOfEach({}, items);
      assert keys == Keys(items);
      if |InCalendar(db, calendar)| - |doomed| + |incoming| > MAX_ENTRIES {
        return Err(LimitReached);
      }
      var lists := ByKey(db, doomed);
      var kept, dropped := Tally(db, doomed, lists, keys);
      r := Ok(Counts(|incoming|, |doomed|, kept, dropped));
      if dryRun {
        return;
      }
      var after, clash := WriteWindow(calendar, from, to, doomed, incoming, keys, items, ids);
      if clash {
        return Err(Integrity);
      }
      ExceptionsSurvive(db, calendar, from, to, items, ids);
      db := after;
    }

    /** The old rows out, the new ones in, the carried exceptions on them. */
    method WriteWindow(
        calendar: Id, ghost from: Day, ghost to: Day, doomed: set<Id>, incoming: seq<Fields>, keys: set<Key>,
        ghost items: seq<Fields>, ids: seq<Id>)
      returns (after: Db, clash: bool)
      requires Valid(db) && |items| <= |ids| && FreshIds(db, ids) && Acceptable(from, to, items)
      requires incoming == Firsts({}, items) && keys == Keys(items)
      ensures
        var carried := Carried(db, doomed, keys);
        && (clash <==> Clash(db, carried))
        && after == Replaced(db, doomed, Created(calendar, incoming, ids), carried, Placed(incoming, ids))
    {
      var carried := Carried(db, doomed, keys);
      var entries, placed := AddRows(db.entries - doomed, calendar, incoming, ids);
      CreatedFit(db, calendar, from, to, items, ids);
      CarriedAreInsertable(db, doomed, placed, Created(calendar, incoming, ids), keys, calendar);
      var exceptions;
      exceptions, clash := InsertCarried(db, db.exceptions - ExceptionsOn(db, doomed), carried, placed);
      after := db.(entries := entries, exceptions := exceptions);
    }

    /** Skips what is there already; too many entries in the end, and none is added. */
    method CreateEntries(calendar: Id, items: seq<Fields>, ids: seq<Id>) returns (r: Result<(nat, nat), Error>)
      requires Valid(db) && |items| <= |ids| && FreshIds(db, ids)
      modifies this
      ensures Valid(db)
      ensures
        var novel := Firsts(KeysIn(old(db), calendar), items);
        var after := old(db).(entries := old(db).entries + Created(calendar, novel, ids));
        && (r.Err? <==> calendar !in old(db).calendars || |InCalendar(after, calendar)| > 2000)
        && db == (if r.Ok? then after else old(db))
        && (r.Ok? ==> r.value == (|novel|, |items| - |novel|))
    {
      if calendar !in db.calendars {
        return Err(NotFound);
      }
      var novel, keys := FirstOfEach(KeysIn(db, calendar), items);
      var entries, placed := AddRows(db.entries, calendar, novel, ids);
      var after := db.(entries := entries);
      if |InCalendar(after, calendar)| > MAX_ENTRIES {
        return Err(LimitReached);
      }
      db := after;
      r := Ok((|novel|, |items| - |novel|));
    }
  }

  lemma CarriedAreInsertable(
      db: Db, doomed: set<Id>, placed: map<Key, Id>, created: map<Id, Entry>, keys: set<Key>, calendar: Id)
    requires Valid(db) && Matched(placed, created, keys, calendar) && NewIds(db, created)
    ensures Insertable(db, db.exceptions - ExceptionsOn(db, doomed), Carried(db, doomed, keys), placed)
  {}
}
