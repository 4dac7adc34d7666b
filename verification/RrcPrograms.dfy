/**
  Weekly schedules of RRC programs (rrc_programs.py): lossless parsing, editing one switch point, and
  single-write transactions with read-back.
 */
module RrcPrograms {
  import opened Common

  const MAX_ITEMS: nat := 512

  datatype Day = Mo | Tu | We | Th | Fr | Sa | Su

  /** One entry of the reported array. `day` is empty for anything but a known day; `extra` are its other fields. */
  datatype Item =
    | Entry(day: Option<Day>, minute: Option<int>, temperature: Option<real>, extra: seq<(string, string)>)
    | NoObject

  datatype SwitchPoint = SwitchPoint(day: Day, minute: int, temperature: real)

  /** What is read at a program path: the whole week, or one day. `shaped` covers type, availability and references. */
  datatype Scope = Week | OneDay(day: Day)

  datatype Resource = Resource(scope: Scope, shaped: bool, writable: bool, unknownFields: bool, items: seq<Item>)

  /** The parsed points together with the items they were parsed from, which an edit has to give back. */
  datatype Schedule = Schedule(points: seq<SwitchPoint>, items: seq<Item>, editable: bool)

  predicate IsHalfDegree(t: real) { (t * 2.0).Floor as real == t * 2.0 }

  predicate IsReadable(item: Item, scope: Scope) {
    && item.Entry? && item.day.Some? && item.minute.Some? && 0 <= item.minute.value < 1440
    && item.temperature.Some? && 0.0 <= item.temperature.value <= 30.0
    && (scope.OneDay? ==> item.day.value == scope.day)
  }

  predicate IsPlain(item: Item)
    requires IsReadable(item, Week)
  {
    item.extra == [] && item.minute.value % 5 == 0 && 5.0 <= item.temperature.value && IsHalfDegree(item.temperature.value)
  }

  function PointOf(item: Item): SwitchPoint
    requires IsReadable(item, Week)
  {
    SwitchPoint(item.day.value, item.minute.value, item.temperature.value)
  }

  ghost predicate IsHalves(t: real, n: int) { 2.0 * t == n as real }

  // Temperatures come in half degrees.
  lemma HalfDegrees(t: real)
    ensures IsHalfDegree(t) <==> exists n: int :: IsHalves(t, n)
  {
    assert IsHalfDegree(t) ==> IsHalves(t, (t * 2.0).Floor);
    if n: int :| IsHalves(t, n) {
      assert (t * 2.0).Floor == n;
    }
  }

  // What an entry must be to be readable, and what is left to make it editable.
  lemma ReadableExactly(item: Item, scope: Scope)
    ensures IsReadable(item, scope) <==>
              exists day, minute, temperature, extra ::
                && item == Entry(Some(day), Some(minute), Some(temperature), extra)
                && 0 <= minute <= 1439 && 0.0 <= temperature <= 30.0 && (scope == Week || scope == OneDay(day))
    ensures IsReadable(item, Week) ==>
              (IsPlain(item) <==> item.extra == [] && AcceptsValues(item.minute.value, item.temperature.value))
    ensures IsReadable(item, Week) ==>
              item == Entry(Some(PointOf(item).day), Some(PointOf(item).minute), Some(PointOf(item).temperature), item.extra)
  {
    if IsReadable(item, scope) {
      assert item == Entry(Some(item.day.value), Some(item.minute.value), Some(item.temperature.value), item.extra);
    }
  }

  // An edit is offered exactly the five-minute times of a day, and 5 to 30 degrees in half degrees.
  lemma AcceptsExactly(minute: int, temperature: real)
    ensures AcceptsValues(minute, temperature) <==>
              0 <= minute <= 1435 && minute % 5 == 0 && exists n: int :: IsHalves(temperature, n) && 10 <= n <= 60
  {
    HalfDegrees(temperature);
    if AcceptsValues(minute, temperature) {
      var n: int :| IsHalves(temperature, n);
      assert 10 <= n <= 60;
    }
  }

  ghost predicate AllReadable(items: seq<Item>, scope: Scope) {
    forall i :: 0 <= i < |items| ==> IsReadable(items[i], scope) && IsReadable(items[i], Week)
  }

  /** Points of one day come in strictly increasing order. */
  ghost predicate DaysIncrease(items: seq<Item>)
    requires AllReadable(items, Week)
  {
    forall i, j :: 0 <= i < j < |items| && items[i].day == items[j].day ==> items[i].minute.value < items[j].minute.value
  }

  ghost predicate AllPlain(items: seq<Item>)
    requires AllReadable(items, Week)
  {
    forall i :: 0 <= i < |items| ==> IsPlain(items[i])
  }

  /** What makes a readable array editable. */
  ghost predicate IsEditable(items: seq<Item>) {
    AllReadable(items, Week) && AllPlain(items) && DaysIncrease(items)
  }

  ghost predicate PointsOf(items: seq<Item>, points: seq<SwitchPoint>)
    requires AllReadable(items, Week)
  {
    |points| == |items| && forall i :: 0 <= i < |items| ==> points[i] == PointOf(items[i])
  }

  /** The latest minute of each day so far is the minute of its last entry. */
  ghost predicate LastMinutes(items: seq<Item>, last: map<Day, int>)
    requires AllReadable(items, Week)
  {
    && (forall i :: 0 <= i < |items| ==> items[i].day.value in last)
    && (forall d :: d in last ==> exists i :: LastOfDay(items, i, d, last[d]))
  }

  ghost predicate LastOfDay(items: seq<Item>, i: int, d: Day, minute: int)
    requires AllReadable(items, Week)
  {
    0 <= i < |items| && items[i].day.value == d && items[i].minute.value == minute
    && forall j :: i < j < |items| ==> items[j].day.value != d
  }

  /** The first `i` items were read. */
  ghost predicate Parsing(r: Resource, i: nat, points: seq<SwitchPoint>, last: map<Day, int>, editable: bool) {
    && i <= |r.items| && AllReadable(r.items[..i], r.scope) && PointsOf(r.items[..i], points) && LastMinutes(r.items[..i], last)
    && (editable <==> r.writable && !r.unknownFields && IsEditable(r.items[..i]))
  }

  lemma ParsingNext(r: Resource, i: nat, points: seq<SwitchPoint>, last: map<Day, int>, editable: bool)
    requires Parsing(r, i, points, last, editable) && i < |r.items| && IsReadable(r.items[i], r.scope)
    ensures var item := r.items[i];
            item.day.Some? && item.minute.Some? && item.temperature.Some? &&
            Parsing(r, i + 1, points + [PointOf(item)], last[item.day.value := item.minute.value],
                    editable && IsPlain(item) && !(item.day.value in last && item.minute.value <= last[item.day.value])) == true
  {
    ReadableNext(r.items, i, r.scope, points);
    EditableNext(r.items[..i], r.items[i], last);
    LastNext(r.items[..i], r.items[i], last);
  }

  /** A program path is readable exactly when every entry is; it is editable exactly when it also is plain, ordered and writable. */
  method ParseSchedule(r: Resource) returns (schedule: Option<Schedule>)
    ensures schedule.Some? <==> r.shaped && |r.items| <= MAX_ITEMS && AllReadable(r.items, r.scope)
    ensures schedule.Some? ==>
              && schedule.value.items == r.items && AllReadable(r.items, Week) && PointsOf(r.items, schedule.value.points)
              && (schedule.value.editable <==> r.writable && !r.unknownFields && IsEditable(r.items))
  {
    if !r.shaped || |r.items| > MAX_ITEMS {
      return None;
    }
    var points: seq<SwitchPoint>, editable, last: map<Day, int> := [], r.writable && !r.unknownFields, map[];
    for i := 0 to |r.items|
      invariant Parsing(r, i, points, last, editable) == true
    {
      var item := r.items[i];
      if !IsReadable(item, r.scope) {
        return None;
      }
      ParsingNext(r, i, points, last, editable);
      if !IsPlain(item) || (item.day.value in last && item.minute.value <= last[item.day.value]) {
        editable := false;
      }
      last := last[item.day.value := item.minute.value];
      points := points + [PointOf(item)];
    }
    assert r.items[..|r.items|] == r.items;
    schedule := Some(Schedule(points, r.items, editable));
  }

  lemma ReadableNext(items: seq<Item>, i: nat, scope: Scope, points: seq<SwitchPoint>)
    requires i < |items| && AllReadable(items[..i], scope) && AllReadable(items[..i], Week) && PointsOf(items[..i], points)
    requires IsReadable(items[i], scope)
    ensures items[..i + 1] == items[..i] + [items[i]]
    ensures AllReadable(items[..i + 1], scope) && AllReadable(items[..i + 1], Week)
    ensures PointsOf(items[..i + 1], points + [PointOf(items[i])])
  {
  }

  lemma EditableNext(items: seq<Item>, item: Item, last: map<Day, int>)
    requires AllReadable(items, Week) && LastMinutes(items, last) && IsReadable(item, Week)
    ensures IsEditable(items + [item]) <==>
              IsEditable(items) && IsPlain(item) && (item.day.value in last ==> item.minute.value > last[item.day.value])
  {
    if IsEditable(items + [item]) {
      ComesAfter(items, item, last);
    }
    if IsEditable(items) && IsPlain(item) && (item.day.value in last ==> item.minute.value > last[item.day.value]) {
      StaysIncreasing(items, item, last);
    }
  }

  lemma ComesAfter(items: seq<Item>, item: Item, last: map<Day, int>)
    requires AllReadable(items, Week) && LastMinutes(items, last) && IsReadable(item, Week) && IsEditable(items + [item])
    ensures IsEditable(items) && IsPlain(item) && (item.day.value in last ==> item.minute.value > last[item.day.value])
  {
    var longer := items + [item];
    assert forall i :: 0 <= i < |items| ==> longer[i] == items[i];
    assert longer[|items|] == item;
    if item.day.value in last {
      var i :| LastOfDay(items, i, item.day.value, last[item.day.value]);
      assert longer[i].minute.value < longer[|items|].minute.value;
    }
  }

  lemma StaysIncreasing(items: seq<Item>, item: Item, last: map<Day, int>)
    requires IsEditable(items) && IsReadable(item, Week) && IsPlain(item) && LastMinutes(items, last)
    requires item.day.value in last ==> item.minute.value > last[item.day.value]
    ensures IsEditable(items + [item])
  {
    forall i | 0 <= i < |items| && items[i].day == item.day ensures items[i].minute.value < item.minute.value {
      var k :| LastOfDay(items, k, item.day.value, last[item.day.value]);
    }
  }

  lemma LastNext(items: seq<Item>, item: Item, last: map<Day, int>)
    requires AllReadable(items, Week) && LastMinutes(items, last) && IsReadable(item, Week)
    ensures AllReadable(items + [item], Week) && LastMinutes(items + [item], last[item.day.value := item.minute.value])
  {
    var longer, next := items + [item], last[item.day.value := item.minute.value];
    forall d | d in next ensures exists i :: LastOfDay(longer, i, d, next[d]) {
      if d == item.day.value {
        assert LastOfDay(longer, |items|, d, next[d]);
      } else {
        var i :| LastOfDay(items, i, d, last[d]);
        assert LastOfDay(longer, i, d, next[d]);
      }
    }
  }

  // ----- Editing one point -----

  function OfDay(items: seq<Item>, day: Day): seq<Item> {
    if items == [] then []
    else
      var earlier, last := OfDay(items[..|items| - 1], day), items[|items| - 1];
      if last.Entry? && last.day == Some(day) then earlier + [last] else earlier
  }

  function MinuteOf(item: Item): int { if item.Entry? && item.minute.Some? then item.minute.value else 0 }

  predicate NotLater(a: Item, b: Item) { MinuteOf(a) <= MinuteOf(b) }

  function ByMinute(): (Item, Item) -> bool { (a, b) => NotLater(a, b) }

  predicate AcceptsValues(minute: int, temperature: real) {
    0 <= minute < 1440 && minute % 5 == 0 && 5.0 <= temperature <= 30.0 && IsHalfDegree(temperature)
  }

  function Moved(item: Item, minute: int, temperature: real): Item
    requires item.Entry?
  {
    item.(minute := Some(minute), temperature := Some(temperature))
  }

  function EditedDay(items: seq<Item>, index: nat, minute: int, temperature: real): seq<Item>
    requires index < |items| && IsReadable(items[index], Week)
  {
    Sort(OfDay(items[index := Moved(items[index], minute, temperature)], items[index].day.value), ByMinute())
  }

  predicate Occupied(points: seq<SwitchPoint>, index: nat, minute: int)
    requires index < |points|
  {
    exists i :: 0 <= i < |points| && i != index && points[i].day == points[index].day && points[i].minute == minute
  }

  /** Changes one existing point and returns its day in order; refused exactly for unsupported values or an occupied time. */
  method EditPoint(s: Schedule, index: int, minute: int, temperature: real) returns (day: Option<seq<Item>>)
    requires |s.items| == |s.points| && (s.editable ==> IsEditable(s.items) && PointsOf(s.items, s.points))
    ensures day.Some? <==>
              && s.editable && 0 <= index < |s.points| && AcceptsValues(minute, temperature) && !Occupied(s.points, index, minute)
    ensures day.Some? ==> day.value == EditedDay(s.items, index, minute, temperature)
  {
    if !s.editable || index < 0 || index >= |s.points| || !AcceptsValues(minute, temperature) || Occupied(s.points, index, minute) {
      return None;
    }
    var dayPoints := DayPoints(s.items, index, s.points[index].day, minute, temperature);
    day := Some(Sort(dayPoints, ByMinute()));
  }

  // The items of the edited day, with the edited one moved.
  method DayPoints(items: seq<Item>, index: nat, day: Day, minute: int, temperature: real) returns (dayPoints: seq<Item>)
    requires index < |items| && items[index].Entry? && items[index].day == Some(day)
    ensures dayPoints == OfDay(items[index := Moved(items[index], minute, temperature)], day)
  {
    dayPoints := [];
    ghost var edited := items[index := Moved(items[index], minute, temperature)];
    for position := 0 to |items|
      invariant dayPoints == OfDay(edited[..position], day)
    {
      OfDayNext(edited, position, day);
      var item := items[position];
      if item.Entry? && item.day == Some(day) {
        if position == index {
          item := Moved(item, minute, temperature);
        }
        dayPoints := dayPoints + [item];
      }
    }
    assert edited[..|items|] == edited;
  }

  lemma OfDayNext(items: seq<Item>, i: nat, day: Day)
    requires i < |items|
    ensures OfDay(items[..i + 1], day) ==
              OfDay(items[..i], day) + if items[i].Entry? && items[i].day == Some(day) then [items[i]] else []
  {
    assert items[..i + 1][..i] == items[..i];
  }

  lemma {:induction false} OfDayHolds(items: seq<Item>, day: Day)
    ensures forall x :: x in OfDay(items, day) <==> x in items && x.Entry? && x.day == Some(day)
  {
    if items != [] {
      OfDayHolds(items[..|items| - 1], day);
      assert items == items[..|items| - 1] + [items[|items| - 1]];
    }
  }

  lemma {:induction false} OfDayShorter(items: seq<Item>, day: Day)
    ensures |OfDay(items, day)| <= |items|
  {
    if items != [] {
      OfDayShorter(items[..|items| - 1], day);
    }
  }

  lemma OfDayReadable(items: seq<Item>, day: Day)
    requires AllReadable(items, Week)
    ensures AllReadable(OfDay(items, day), OneDay(day)) && |OfDay(items, day)| <= |items|
  {
    OfDayShorter(items, day);
    OfDayHolds(items, day);
    forall i | 0 <= i < |OfDay(items, day)| ensures IsReadable(OfDay(items, day)[i], OneDay(day)) {
      var x := OfDay(items, day)[i];
      assert x in OfDay(items, day);
      var k :| 0 <= k < |items| && items[k] == x;
    }
  }

  // The entries of one day of an editable week are strictly increasing.
  lemma {:induction false} OfDayIncreases(items: seq<Item>, day: Day)
    requires IsEditable(items)
    ensures forall i, j :: 0 <= i < j < |OfDay(items, day)| ==> MinuteOf(OfDay(items, day)[i]) < MinuteOf(OfDay(items, day)[j])
  {
    if items != [] {
      var front, last := items[..|items| - 1], items[|items| - 1];
      OfDayIncreases(front, day);
      OfDayHolds(front, day);
      var d := OfDay(front, day);
      forall i | 0 <= i < |d| && last.day == Some(day) ensures MinuteOf(d[i]) < MinuteOf(last) {
        assert d[i] in d;
        var k :| 0 <= k < |front| && front[k] == d[i];
        assert items[k] == d[i];
      }
    }
  }

  // Changing one entry of the week changes its day at one position.
  lemma {:induction false} OfDayExchanges(items: seq<Item>, index: nat, item: Item, day: Day)
    requires index < |items| && items[index].Entry? && items[index].day == Some(day) && item.Entry? && item.day == Some(day)
    ensures var at := |OfDay(items[..index], day)|;
            && at < |OfDay(items, day)| && OfDay(items, day)[at] == items[index]
            && OfDay(items[index := item], day) == OfDay(items, day)[at := item]
  {
    var changed, n := items[index := item], |items| - 1;
    if index == n {
      assert changed[..n] == items[..n];
    } else {
      assert changed[..n] == items[..n][index := item] && items[..n][..index] == items[..index];
      OfDayExchanges(items[..n], index, item, day);
    }
  }

  // The entries of a day are those of the week, in the same order and as often.
  lemma {:induction false} OfDayJoins(a: seq<Item>, b: seq<Item>, day: Day)
    ensures OfDay(a + b, day) == OfDay(a, day) + OfDay(b, day)
  {
    if b == [] {
      assert a + b == a;
    } else {
      var front := b[..|b| - 1];
      OfDayJoins(a, front, day);
      assert (a + b)[..|a + b| - 1] == a + front;
    }
  }

  lemma OfDayFilters(x: Item, day: Day)
    ensures OfDay([], day) == [] && OfDay([x], day) == if x.Entry? && x.day == Some(day) then [x] else []
  {
    assert [x][..0] == [];
  }

  lemma ExchangeOne(s: seq<Item>, at: nat, x: Item)
    requires at < |s|
    ensures multiset(s[at := x]) + multiset{s[at]} == multiset(s) + multiset{x}
  {
  }

  // The edited day is the old day with exactly one entry replaced.
  lemma EditReplacesOne(items: seq<Item>, index: nat, minute: int, temperature: real)
    requires index < |items| && IsReadable(items[index], Week)
    ensures multiset(EditedDay(items, index, minute, temperature)) + multiset{items[index]} ==
              multiset(OfDay(items, items[index].day.value)) + multiset{Moved(items[index], minute, temperature)}
    ensures items[index] in OfDay(items, items[index].day.value)
  {
    var day, item := items[index].day.value, Moved(items[index], minute, temperature);
    OfDayExchanges(items, index, item, day);
    ExchangeOne(OfDay(items, day), |OfDay(items[..index], day)|, item);
    SortCorrect(OfDay(items[index := item], day), ByMinute());
  }

  ghost predicate Free(items: seq<Item>, index: nat, minute: int)
    requires index < |items| && items[index].Entry?
  {
    forall i :: 0 <= i < |items| && i != index && items[i].Entry? && items[i].day == items[index].day ==> MinuteOf(items[i]) != minute
  }

  ghost predicate TimesDiffer(s: seq<Item>) {
    forall i, j :: 0 <= i < j < |s| ==> MinuteOf(s[i]) != MinuteOf(s[j])
  }

  lemma EditedPair(items: seq<Item>, index: nat, minute: int, temperature: real, k: nat, m: nat)
    requires IsEditable(items) && index < |items| && k < m < |items| && Free(items, index, minute)
    requires items[k].day == items[index].day && items[m].day == items[index].day
    ensures var edited := items[index := Moved(items[index], minute, temperature)]; MinuteOf(edited[k]) != MinuteOf(edited[m])
  {
  }

  lemma EditedLast(items: seq<Item>, index: nat, minute: int, temperature: real, n: nat)
    requires IsEditable(items) && index < |items| && n < |items| && Free(items, index, minute)
    requires items[n].day == items[index].day
    ensures var edited := items[index := Moved(items[index], minute, temperature)];
            forall x :: x in OfDay(edited[..n], items[index].day.value) ==> MinuteOf(x) != MinuteOf(edited[n])
  {
    var edited, day := items[index := Moved(items[index], minute, temperature)], items[index].day.value;
    OfDayHolds(edited[..n], day);
    forall x | x in OfDay(edited[..n], day) ensures MinuteOf(x) != MinuteOf(edited[n]) {
      var k :| 0 <= k < n && edited[k] == x;
      EditedPair(items, index, minute, temperature, k, n);
    }
  }

  // No two entries of the edited day have the same time.
  lemma {:induction false} EditedTimesDiffer(items: seq<Item>, index: nat, minute: int, temperature: real, n: nat)
    requires IsEditable(items) && index < |items| && n <= |items| && Free(items, index, minute)
    ensures TimesDiffer(OfDay(items[index := Moved(items[index], minute, temperature)][..n], items[index].day.value))
  {
    if n > 0 {
      var edited := items[index := Moved(items[index], minute, temperature)];
      EditedTimesDiffer(items, index, minute, temperature, n - 1);
      assert edited[..n][..n - 1] == edited[..n - 1];
      if edited[n - 1].day == items[index].day {
        EditedLast(items, index, minute, temperature, n - 1);
      }
    }
  }

  // Sorting entries with different times orders them strictly.
  lemma SortedStrictly(s: seq<Item>)
    requires TimesDiffer(s)
    ensures forall i, j :: 0 <= i < j < |Sort(s, ByMinute())| ==> MinuteOf(Sort(s, ByMinute())[i]) < MinuteOf(Sort(s, ByMinute())[j])
  {
    var r := Sort(s, ByMinute());
    SortCorrect(s, ByMinute());
    assert NoRepeats(s);
    SortKeepsDistinct(s, ByMinute());
    forall i, j | 0 <= i < j < |r| ensures MinuteOf(r[i]) < MinuteOf(r[j]) {
      assert ByMinute()(r[i], r[j]);
      assert r[i] in s && r[j] in s && r[i] != r[j];
    }
  }

  // An accepted edit returns a strictly increasing day that parses as editable again.
  lemma EditedDayIsEditable(items: seq<Item>, index: nat, minute: int, temperature: real)
    requires IsEditable(items) && index < |items| && AcceptsValues(minute, temperature) && Free(items, index, minute)
    ensures var d, day := EditedDay(items, index, minute, temperature), items[index].day.value;
            && AllReadable(d, OneDay(day)) && IsEditable(d)
            && forall i, j :: 0 <= i < j < |d| ==> MinuteOf(d[i]) < MinuteOf(d[j])
  {
    var edited, day := items[index := Moved(items[index], minute, temperature)], items[index].day.value;
    var d := EditedDay(items, index, minute, temperature);
    EditedTimesDiffer(items, index, minute, temperature, |items|);
    assert edited[..|items|] == edited;
    SortedStrictly(OfDay(edited, day));
    forall i | 0 <= i < |d| ensures IsReadable(d[i], OneDay(day)) && IsReadable(d[i], Week) && IsPlain(d[i]) {
      EditedEntry(items, index, minute, temperature, i);
    }
  }

  lemma EditedEntry(items: seq<Item>, index: nat, minute: int, temperature: real, i: nat)
    requires IsEditable(items) && index < |items| && AcceptsValues(minute, temperature)
    requires i < |EditedDay(items, index, minute, temperature)|
    ensures var e := EditedDay(items, index, minute, temperature)[i];
            IsReadable(e, OneDay(items[index].day.value)) && IsReadable(e, Week) && IsPlain(e)
  {
    var edited, day := items[index := Moved(items[index], minute, temperature)], items[index].day.value;
    SortCorrect(OfDay(edited, day), ByMinute());
    OfDayHolds(edited, day);
    var d := EditedDay(items, index, minute, temperature);
    assert d[i] in d;
    var k :| 0 <= k < |edited| && edited[k] == d[i];
    assert k != index ==> IsPlain(items[k]);
  }

  // Every accepted edit: a strictly increasing, editable day that differs from the old one in exactly this entry.
  lemma AcceptedEditIsCorrect(s: Schedule, index: nat, minute: int, temperature: real)
    requires IsEditable(s.items) && PointsOf(s.items, s.points) && index < |s.points|
    requires AcceptsValues(minute, temperature) && !Occupied(s.points, index, minute)
    ensures var d, day := EditedDay(s.items, index, minute, temperature), s.items[index].day.value;
            && AllReadable(d, OneDay(day)) && IsEditable(d)
            && (forall i, j :: 0 <= i < j < |d| ==> MinuteOf(d[i]) < MinuteOf(d[j]))
            && multiset(d) + multiset{s.items[index]} == multiset(OfDay(s.items, day)) + multiset{Moved(s.items[index], minute, temperature)}
  {
    forall i | 0 <= i < |s.items| && i != index && s.items[i].day == s.items[index].day ensures MinuteOf(s.items[i]) != minute {
      assert s.points[i] == PointOf(s.items[i]);
    }
    EditedDayIsEditable(s.items, index, minute, temperature);
    EditReplacesOne(s.items, index, minute, temperature);
  }

  // Submitting a point's own time and temperature changes nothing.
  lemma IdentityEdit(items: seq<Item>, index: nat)
    requires IsEditable(items) && index < |items|
    ensures EditedDay(items, index, items[index].minute.value, items[index].temperature.value) == OfDay(items, items[index].day.value)
  {
    var day := items[index].day.value;
    assert items[index := Moved(items[index], items[index].minute.value, items[index].temperature.value)] == items;
    OfDayIncreases(items, day);
    SortedUnchanged(OfDay(items, day), ByMinute());
  }

  /** The entry of a week with the submitted values, and its other fields as they were. */
  ghost predicate HasValues(x: Item, previous: Item, minute: int, temperature: real) {
    && x.Entry? && previous.Entry? && x.day == previous.day && x.extra == previous.extra
    && x.minute == Some(minute) && x.temperature == Some(temperature)
  }

  /** An entry of the same day other than the edited one. */
  ghost predicate IsOther(items: seq<Item>, index: nat, i: int)
    requires index < |items| && items[index].Entry?
  {
    0 <= i < |items| && i != index && items[i].Entry? && items[i].day == items[index].day
  }

  ghost predicate WasOther(items: seq<Item>, index: nat, x: Item)
    requires index < |items| && items[index].Entry?
  {
    exists i :: IsOther(items, index, i) && items[i] == x
  }

  // The accepted day holds the submitted time and temperature once, and every other entry of the old day unchanged,
  // in the order of their times, and nothing else.
  lemma EditedDayHolds(items: seq<Item>, index: nat, minute: int, temperature: real) returns (k: nat)
    requires IsEditable(items) && index < |items| && AcceptsValues(minute, temperature) && Free(items, index, minute)
    ensures var d := EditedDay(items, index, minute, temperature);
            && k < |d| && HasValues(d[k], items[index], minute, temperature) && |d| == |OfDay(items, items[index].day.value)|
            && (forall i :: IsOther(items, index, i) ==> items[i] in d)
            && (forall j :: 0 <= j < |d| && j != k ==> WasOther(items, index, d[j]))
            && forall i, j :: 0 <= i < j < |d| ==> MinuteOf(d[i]) < MinuteOf(d[j])
  {
    var d := EditedDay(items, index, minute, temperature);
    EditedDayIsEditable(items, index, minute, temperature);
    k := EditedIsThere(items, index, minute, temperature);
    forall j | 0 <= j < |d| && j != k ensures WasOther(items, index, d[j]) {
      var i := EditedComesFrom(items, index, minute, temperature, j);
      assert if j < k then MinuteOf(d[j]) < MinuteOf(d[k]) else MinuteOf(d[k]) < MinuteOf(d[j]);
      assert IsOther(items, index, i) && d[j] == items[i];
    }
  }

  lemma EditedIsThere(items: seq<Item>, index: nat, minute: int, temperature: real) returns (k: nat)
    requires IsEditable(items) && index < |items|
    ensures var d := EditedDay(items, index, minute, temperature);
            && k < |d| && HasValues(d[k], items[index], minute, temperature) && |d| == |OfDay(items, items[index].day.value)|
            && forall i :: IsOther(items, index, i) ==> items[i] in d
  {
    var day, moved := items[index].day.value, Moved(items[index], minute, temperature);
    var edited, d := items[index := moved], EditedDay(items, index, minute, temperature);
    OfDayExchanges(items, index, moved, day);
    SortCorrect(OfDay(edited, day), ByMinute());
    OfDayHolds(edited, day);
    assert edited[index] in edited;
    k :| 0 <= k < |d| && d[k] == moved;
    forall i | IsOther(items, index, i) ensures items[i] in d {
      assert edited[i] == items[i] && edited[i] in edited;
    }
  }

  lemma EditedComesFrom(items: seq<Item>, index: nat, minute: int, temperature: real, j: nat) returns (i: nat)
    requires IsEditable(items) && index < |items| && j < |EditedDay(items, index, minute, temperature)|
    ensures var x := EditedDay(items, index, minute, temperature)[j];
            i < |items| && if i == index then MinuteOf(x) == minute else IsOther(items, index, i) && x == items[i]
  {
    var day, moved := items[index].day.value, Moved(items[index], minute, temperature);
    var edited, d := items[index := moved], EditedDay(items, index, minute, temperature);
    SortCorrect(OfDay(edited, day), ByMinute());
    OfDayHolds(edited, day);
    assert d[j] in d;
    i :| 0 <= i < |edited| && edited[i] == d[j];
  }

  // An edit changes the day exactly if it changes the time or the temperature.
  lemma ChangesExactly(items: seq<Item>, index: nat, minute: int, temperature: real)
    requires IsEditable(items) && index < |items| && AcceptsValues(minute, temperature) && Free(items, index, minute)
    ensures EditedDay(items, index, minute, temperature) == OfDay(items, items[index].day.value) <==>
              items[index].minute == Some(minute) && items[index].temperature == Some(temperature)
  {
    var day := items[index].day.value;
    if items[index].minute == Some(minute) && items[index].temperature == Some(temperature) {
      IdentityEdit(items, index);
    } else if EditedDay(items, index, minute, temperature) == OfDay(items, day) {
      SameDaySameEntry(items, index, minute, temperature);
    }
  }

  lemma SameDaySameEntry(items: seq<Item>, index: nat, minute: int, temperature: real)
    requires IsEditable(items) && index < |items| && AcceptsValues(minute, temperature) && Free(items, index, minute)
    requires EditedDay(items, index, minute, temperature) == OfDay(items, items[index].day.value)
    ensures items[index].minute == Some(minute) && items[index].temperature == Some(temperature)
  {
    var day := items[index].day.value;
    var k := EditedDayHolds(items, index, minute, temperature);
    var x := OfDay(items, day)[k];
    OfDayHolds(items, day);
    assert x in OfDay(items, day);
    var i :| 0 <= i < |items| && items[i] == x;
    assert MinuteOf(items[i]) == minute && items[i].day == items[index].day;
    assert i == index;
  }

  // ----- Transactions -----

  datatype GetReply = Got(resource: Resource) | Temporary | GetFailed

  datatype PutReply = PutAccepted | PutTransportFailure | PutRejected

  /** The scalar that selects a zone's program; `offered` is the reported program list. */
  datatype Selection = Selection(current: Option<int>, writable: bool)

  datatype SelectReply = GotSelection(selection: Selection) | SelectTemporary | SelectFailed

  datatype OfferReply = GotPrograms(offered: seq<int>) | OfferFailed

  /** Every request, in order, with what came back. */
  datatype Event =
    | FetchedWeek(week: GetReply)
    | FetchedDay(day: GetReply)
    | PutDay(items: seq<Item>, answer: PutReply)
    | FetchedPrograms(programs: OfferReply)
    | FetchedSelection(reply: SelectReply)
    | PutSelection(program: int, answer: PutReply)

  datatype Outcome = Unchanged(seen: Resource) | Confirmed(week: Resource) | Rejected | NotConfirmed | Failed

  datatype SelectOutcome = Selected(selection: Selection) | NotSelected

  /** A schedule is fresh when the array just read is editable and equal to the one the user saw. */
  ghost predicate IsFresh(r: Resource, scope: Scope, items: seq<Item>) {
    r.scope == scope && r.shaped && r.writable && !r.unknownFields && r.items == items && IsEditable(items)
  }

  /** Week and day were read, in this order, exactly as the user saw them. */
  ghost predicate Prepared(log: seq<Event>, expected: seq<Item>, day: Day) {
    && |log| >= 2
    && log[0].FetchedWeek? && log[0].week.Got? && IsFresh(log[0].week.resource, Week, expected)
    && log[1].FetchedDay? && log[1].day.Got? && IsFresh(log[1].day.resource, OneDay(day), OfDay(expected, day))
  }

  ghost predicate OnlyWeeks(events: seq<Event>) { forall i :: 0 <= i < |events| ==> events[i].FetchedWeek? }

  /** How an edit goes: two reads, at most one PUT, and only after both were fresh; then nothing but reads of the week. */
  ghost predicate EditRun(log: seq<Event>, expected: seq<Item>, day: Day, desired: seq<Item>) {
    && (forall k :: 0 <= k < |log| && k != 2 ==> log[k].FetchedWeek? || log[k].FetchedDay?)
    && (|log| > 2 ==>
          && Prepared(log, expected, day) && log[2].PutDay? && log[2].items == desired && desired != OfDay(expected, day)
          && OnlyWeeks(log[3..]))
  }

  /** The week was read with the desired entries on this day. */
  ghost predicate ShowsDay(e: Event, day: Day, desired: seq<Item>) {
    && e.FetchedWeek? && e.week.Got? && e.week.resource.scope == Week && e.week.resource.shaped
    && |e.week.resource.items| <= MAX_ITEMS && AllReadable(e.week.resource.items, Week) && OfDay(e.week.resource.items, day) == desired
  }

  /** The read-back goes on after these reads: none failed for good, and none shows the desired day. */
  ghost predicate Fruitless(events: seq<Event>, day: Day, desired: seq<Item>) {
    forall i :: 0 <= i < |events| ==> events[i].FetchedWeek? && !events[i].week.GetFailed? && !ShowsDay(events[i], day, desired)
  }

  /** The first read, or the second one after a fresh first one, did not answer, or was not what the user saw. */
  ghost predicate StopsEarly(log: seq<Event>, expected: seq<Item>, day: Day, answered: bool) {
    if |log| == 1 then
      log[0].FetchedWeek? && (log[0].week.Got? <==> answered) && (answered ==> !IsFresh(log[0].week.resource, Week, expected))
    else
      && |log| == 2 && log[0].FetchedWeek? && log[0].week.Got? && IsFresh(log[0].week.resource, Week, expected)
      && log[1].FetchedDay? && (log[1].day.Got? <==> answered)
      && (answered ==> !IsFresh(log[1].day.resource, OneDay(day), OfDay(expected, day)))
  }

  /** The PUT was not refused: it may have taken effect. */
  ghost predicate WasSent(log: seq<Event>) { |log| > 2 && log[2].PutDay? && !log[2].answer.PutRejected? }

  /**
    How it ends, for every sequence of replies: unchanged after two fresh reads, confirmed by the first week after the
    PUT that shows the desired day, and otherwise for exactly one reason.
   */
  ghost predicate EditEnds(log: seq<Event>, expected: seq<Item>, day: Day, desired: seq<Item>, outcome: Outcome) {
    var n := |log| - 1;
    match outcome
    case Unchanged(seen) =>
      |log| == 2 && Prepared(log, expected, day) && log[0].week.resource == seen && desired == OfDay(expected, day)
    case Confirmed(week) =>
      && |log| > 3 && WasSent(log) && Fruitless(log[3..n], day, desired)
      && log[n] == FetchedWeek(Got(week)) && ShowsDay(log[n], day, desired)
    case Rejected => StopsEarly(log, expected, day, true)
    case NotConfirmed => |log| == 6 && WasSent(log) && Fruitless(log[3..], day, desired)
    case Failed =>
      || StopsEarly(log, expected, day, false) || (|log| == 3 && !WasSent(log))
      || (|log| > 3 && WasSent(log) && Fruitless(log[3..n], day, desired)
          && log[n].FetchedWeek? && log[n].week.GetFailed?)
  }

  class RrcProgramService {
    // The requests of the current transaction.
    ghost var log: seq<Event>

    constructor ()
      ensures log == []
    {
      log := [];
    }

    // The gateway answers every request arbitrarily; each request is logged with its answer.

    method GetWeek() returns (reply: GetReply)
      modifies this
      ensures log == old(log) + [FetchedWeek(reply)]
    {
      reply := *;
      log := log + [FetchedWeek(reply)];
    }

    method GetDay() returns (reply: GetReply)
      modifies this
      ensures log == old(log) + [FetchedDay(reply)]
    {
      reply := *;
      log := log + [FetchedDay(reply)];
    }

    method SendDay(items: seq<Item>) returns (answer: PutReply)
      modifies this
      ensures log == old(log) + [PutDay(items, answer)]
    {
      answer := *;
      log := log + [PutDay(items, answer)];
    }

    method GetPrograms() returns (reply: OfferReply)
      modifies this
      ensures log == old(log) + [FetchedPrograms(reply)]
    {
      reply := *;
      log := log + [FetchedPrograms(reply)];
    }

    method GetSelection() returns (reply: SelectReply)
      modifies this
      ensures log == old(log) + [FetchedSelection(reply)]
    {
      reply := *;
      log := log + [FetchedSelection(reply)];
    }

    method SendSelection(program: int) returns (answer: PutReply)
      modifies this
      ensures log == old(log) + [PutSelection(program, answer)]
    {
      answer := *;
      log := log + [PutSelection(program, answer)];
    }

    /** Edits one switch point of the week that the user saw. `edit` is the day and its new contents, unless refused at once. */
    method Edit(expected: Resource, index: int, minute: int, temperature: real)
      returns (outcome: Outcome, ghost edit: Option<(Day, seq<Item>)>)
      modifies this
      ensures edit.Some? <==>
                && expected.scope == Week && expected.shaped && |expected.items| <= MAX_ITEMS && AllReadable(expected.items, Week)
                && expected.writable && !expected.unknownFields && IsEditable(expected.items)
                && 0 <= index < |expected.items| && AcceptsValues(minute, temperature) && Free(expected.items, index, minute)
      ensures edit.Some? ==>
                && edit.value == (expected.items[index].day.value, EditedDay(expected.items, index, minute, temperature))
                && EditRun(log, expected.items, edit.value.0, edit.value.1)
                && EditEnds(log, expected.items, edit.value.0, edit.value.1, outcome)
      ensures edit.Some? && outcome.Unchanged? ==>
                expected.items[index].minute == Some(minute) && expected.items[index].temperature == Some(temperature)
      ensures edit.None? ==> log == [] && outcome == Rejected
    {
      log, edit := [], None;
      var original := ParseSchedule(expected);
      if original.None? || expected.scope != Week {
        return Rejected, edit;
      }
      if 0 <= index < |original.value.points| {
        FreeIsUnoccupied(original.value, index, minute);
      }
      var edited := EditPoint(original.value, index, minute, temperature);
      if edited.None? {
        return Rejected, edit;
      }
      var onDay := original.value.points[index].day;
      edit := Some((onDay, edited.value));
      outcome := Transact(expected.items, onDay, edited.value);
      ChangesExactly(expected.items, index, minute, temperature);
    }

    method Transact(expected: seq<Item>, day: Day, desired: seq<Item>) returns (outcome: Outcome)
      requires log == [] && IsEditable(expected) && |expected| <= MAX_ITEMS
      modifies this
      ensures EditRun(log, expected, day, desired) && EditEnds(log, expected, day, desired, outcome)
    {
      var week, refusal := Preflight(expected, day);
      if refusal.Some? {
        return refusal.value;
      }
      if desired == OfDay(expected, day) {
        return Unchanged(week.value);
      }
      var answer := SendDay(desired);
      if answer.PutRejected? {
        return Failed;
      }
      outcome := ReadBack(expected, day, desired);
    }

    // Reads week and day, which must both be editable and as the user saw them.
    method Preflight(expected: seq<Item>, day: Day) returns (week: Option<Resource>, refusal: Option<Outcome>)
      requires log == [] && IsEditable(expected) && |expected| <= MAX_ITEMS
      modifies this
      ensures |log| <= 2 && forall k :: 0 <= k < |log| ==> log[k].FetchedWeek? || log[k].FetchedDay?
      ensures refusal.Some? ==>
                (refusal.value == Failed || refusal.value == Rejected) && StopsEarly(log, expected, day, refusal.value == Rejected)
      ensures refusal.None? ==> |log| == 2 && Prepared(log, expected, day) && week == Some(log[0].week.resource)
    {
      week := None;
      var reply := GetWeek();
      if !reply.Got? {
        return week, Some(Failed);
      }
      var current := ParseSchedule(reply.resource);
      if current.None? || reply.resource.scope != Week || !current.value.editable || current.value.items != expected {
        return week, Some(Rejected);
      }
      week := Some(reply.resource);
      var dayReply := GetDay();
      if !dayReply.Got? {
        return week, Some(Failed);
      }
      OfDayReadable(expected, day);
      var currentDay := ParseSchedule(dayReply.resource);
      if currentDay.None? || dayReply.resource.scope != OneDay(day) || !currentDay.value.editable
         || currentDay.value.items != OfDay(expected, day) {
        return week, Some(Rejected);
      }
      refusal := None;
    }

    // Reads the week, up to three times, until its day is the desired one; its other days are free to differ.
    method ReadBack(ghost expected: seq<Item>, day: Day, desired: seq<Item>) returns (outcome: Outcome)
      requires |log| == 3 && EditRun(log, expected, day, desired) && WasSent(log)
      modifies this
      ensures EditRun(log, expected, day, desired) && EditEnds(log, expected, day, desired, outcome)
      ensures outcome.Confirmed? || outcome == NotConfirmed || outcome == Failed
    {
      for attempt := 0 to 3
        invariant EditRun(log, expected, day, desired) && |log| == 3 + attempt
        invariant WasSent(log) && Fruitless(log[3..], day, desired)
      {
        ghost var before := log;
        var reply := GetWeek();
        assert log[3..|log| - 1] == before[3..] && log[3..] == before[3..] + [FetchedWeek(reply)];
        if reply.GetFailed? {
          return Failed;
        }
        if !reply.Got? {
          continue;
        }
        var parsed := ParseSchedule(reply.resource);
        if parsed.None? || reply.resource.scope != Week {
          continue;
        }
        if OfDay(parsed.value.items, day) == desired {
          return Confirmed(reply.resource);
        }
      }
      outcome := NotConfirmed;
    }

    /** Selects an offered program. The log says what was read and sent; a normal end means that the last read shows it selected. */
    method Select(program: int) returns (outcome: SelectOutcome)
      modifies this
      ensures SelectRun(log, program)
      ensures SelectEnds(log, program, outcome)
    {
      log := [];
      var programs := GetPrograms();
      if !programs.GotPrograms? {
        return NotSelected;
      }
      var reply := GetSelection();
      if !reply.GotSelection? || !Offers(programs, reply.selection, program) {
        return NotSelected;
      }
      if reply.selection.current == Some(program) {
        return Selected(reply.selection);
      }
      var answer := SendSelection(program);
      if answer.PutRejected? {
        return NotSelected;
      }
      for attempt := 0 to 3
        invariant |log| == 3 + attempt && SelectRun(log, program) && !log[2].answer.PutRejected?
        invariant forall i :: 3 <= i < |log| ==> log[i].FetchedSelection? && !log[i].reply.SelectFailed? && !ShowsProgram(log[i], program)
      {
        var again := GetSelection();
        if again.SelectFailed? {
          return NotSelected;
        }
        if again.GotSelection? && again.selection.current == Some(program) {
          return Selected(again.selection);
        }
      }
      outcome := NotSelected;
    }
  }

  predicate Offers(programs: OfferReply, s: Selection, program: int) {
    programs.GotPrograms? && s.current.Some? && s.writable && program in programs.offered
  }

  // A program can be selected if the list offers it, and the present selection is known and writable.
  lemma OffersExactly(programs: OfferReply, s: Selection, program: int)
    ensures Offers(programs, s, program) <==>
              match programs
              case OfferFailed => false
              case GotPrograms(offered) => s.writable && s.current != None && exists i :: 0 <= i < |offered| && offered[i] == program
  {
  }

  /** Program list and selection are read once; at most one PUT, only of an offered program not yet selected; then only reads. */
  ghost predicate SelectRun(log: seq<Event>, program: int) {
    && 1 <= |log| <= 6 && log[0].FetchedPrograms? && (|log| > 1 ==> log[1].FetchedSelection?)
    && (forall k :: 3 <= k < |log| ==> log[k].FetchedSelection?)
    && (|log| > 2 ==>
          && log[2].PutSelection? && log[2].program == program && log[1].reply.GotSelection?
          && Offers(log[0].programs, log[1].reply.selection, program) && log[1].reply.selection.current != Some(program))
  }

  ghost predicate ShowsProgram(e: Event, program: int) {
    e.FetchedSelection? && e.reply.GotSelection? && e.reply.selection.current == Some(program)
  }

  /** How it ends, for every sequence of replies: with the first selection read that shows the program, or for a stated reason. */
  ghost predicate SelectEnds(log: seq<Event>, program: int, outcome: SelectOutcome) {
    var n := |log| - 1;
    && log != []
    && (forall i :: 3 <= i < n ==> log[i].FetchedSelection? && !log[i].reply.SelectFailed? && !ShowsProgram(log[i], program))
    && (outcome.Selected? ==> |log| > 1 && log[n] == FetchedSelection(GotSelection(outcome.selection)) && ShowsProgram(log[n], program))
    && (outcome == NotSelected ==>
          if |log| == 1 then log[0].FetchedPrograms? && log[0].programs.OfferFailed?
          else if |log| == 2 then
            && log[0].FetchedPrograms? && log[1].FetchedSelection?
            && !(log[1].reply.GotSelection? && Offers(log[0].programs, log[1].reply.selection, program))
          else if |log| == 3 then log[2].PutSelection? && log[2].answer.PutRejected?
          else log[n].FetchedSelection? && (log[n].reply.SelectFailed? || (|log| == 6 && !ShowsProgram(log[n], program))))
  }

  // The points of a schedule say which times are taken.
  lemma FreeIsUnoccupied(s: Schedule, index: int, minute: int)
    requires AllReadable(s.items, Week) && PointsOf(s.items, s.points) && 0 <= index < |s.points|
    ensures Occupied(s.points, index, minute) <==> !Free(s.items, index, minute)
  {
    if Occupied(s.points, index, minute) {
      var i :| 0 <= i < |s.points| && i != index && s.points[i].day == s.points[index].day && s.points[i].minute == minute;
      assert MinuteOf(s.items[i]) == minute && s.items[i].day == s.items[index].day;
    }
    if !Free(s.items, index, minute) {
      var i :| 0 <= i < |s.items| && i != index && s.items[i].Entry? && s.items[i].day == s.items[index].day && MinuteOf(s.items[i]) == minute;
      assert s.points[i] == PointOf(s.items[i]) && s.points[index] == PointOf(s.items[index]);
    }
  }
}
