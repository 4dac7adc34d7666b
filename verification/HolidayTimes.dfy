/**
  Holiday dates and times as PointT writes them (holiday_writes.py, legacy_holidays.py): calendar dates,
  clock times, the legacy end-of-day form 24:00 and inclusive end dates. All times are wall times of one
  fixed-offset zone, in which a wall time identifies an instant.
 */
module HolidayTimes {
  import opened Common

  const DAY: int := 86400

  datatype Date = Date(year: nat, month: nat, day: nat)

  predicate LeapYear(y: nat) { y % 4 == 0 && (y % 100 != 0 || y % 400 == 0) }

  function DaysInMonth(y: nat, m: nat): nat {
    if m == 2 then (if LeapYear(y) then 29 else 28) else if m == 4 || m == 6 || m == 9 || m == 11 then 30 else 31
  }

  predicate IsDate(d: Date) {
    1 <= d.year <= 9999 && 1 <= d.month <= 12 && 1 <= d.day <= DaysInMonth(d.year, d.month)
  }

  // The Gregorian calendar: February has 29 days in every fourth year, except in three of four centuries.
  lemma CalendarExactly(y: nat, m: nat)
    requires 1 <= m <= 12
    ensures LeapYear(y) <==> y % 400 == 0 || (y % 4 == 0 && y % 100 > 0)
    ensures DaysInMonth(y, m) == [31, if LeapYear(y) then 29 else 28, 31, 30, 31, 30, 31, 31, 30, 31, 30, 31][m - 1]
  {
    EveryFourth(y);
  }

  lemma EveryFourth(y: nat)
    ensures y % 400 == 0 ==> y % 4 == 0
  {
    if y % 400 == 0 {
      assert y == 4 * (100 * (y / 400));
    }
  }

  /** Days before a year, and before a month of a year. */
  function DaysBeforeYear(y: nat): nat
    requires y >= 1
  {
    if y == 1 then 0 else DaysBeforeYear(y - 1) + if LeapYear(y - 1) then 366 else 365
  }

  function DaysBeforeMonth(y: nat, m: nat): nat
    requires 1 <= m <= 12
  {
    if m == 1 then 0 else DaysBeforeMonth(y, m - 1) + DaysInMonth(y, m - 1)
  }

  /** The number of a day, counted from 1 January of year 1. */
  function Ordinal(d: Date): nat
    requires IsDate(d)
  {
    DaysBeforeYear(d.year) + DaysBeforeMonth(d.year, d.month) + d.day - 1
  }

  const LAST_DATE := Date(9999, 12, 31)

  function NextDate(d: Date): (next: Date)
    requires IsDate(d) && d != LAST_DATE
    ensures IsDate(next)
  {
    if d.day < DaysInMonth(d.year, d.month) then Date(d.year, d.month, d.day + 1)
    else if d.month < 12 then Date(d.year, d.month + 1, 1)
    else Date(d.year + 1, 1, 1)
  }

  lemma YearIsWhole(y: nat)
    ensures DaysBeforeMonth(y, 12) + 31 == if LeapYear(y) then 366 else 365
  {
    assert DaysBeforeMonth(y, 2) == 31;
    assert DaysBeforeMonth(y, 3) == 31 + DaysInMonth(y, 2);
    assert DaysBeforeMonth(y, 5) == DaysBeforeMonth(y, 3) + 61;
    assert DaysBeforeMonth(y, 7) == DaysBeforeMonth(y, 5) + 61;
    assert DaysBeforeMonth(y, 9) == DaysBeforeMonth(y, 7) + 62;
    assert DaysBeforeMonth(y, 11) == DaysBeforeMonth(y, 9) + 61;
  }

  // The day after is one day later, across month and year ends.
  lemma NextIsTomorrow(d: Date)
    requires IsDate(d) && d != LAST_DATE
    ensures Ordinal(NextDate(d)) == Ordinal(d) + 1
  {
    YearIsWhole(d.year);
  }

  lemma {:induction false} MonthsGrow(y: nat, a: nat, b: nat)
    requires 1 <= a < b <= 12
    ensures DaysBeforeMonth(y, a) + DaysInMonth(y, a) <= DaysBeforeMonth(y, b)
  {
    if a + 1 < b {
      MonthsGrow(y, a, b - 1);
    }
  }

  lemma {:induction false} YearsGrow(a: nat, b: nat)
    requires 1 <= a < b
    ensures DaysBeforeYear(a) + 365 + (if LeapYear(a) then 1 else 0) <= DaysBeforeYear(b)
  {
    if a + 1 < b {
      YearsGrow(a, b - 1);
    }
  }

  lemma WithinYear(d: Date)
    requires IsDate(d)
    ensures Ordinal(d) < DaysBeforeYear(d.year) + 365 + if LeapYear(d.year) then 1 else 0
  {
    YearIsWhole(d.year);
    if d.month < 12 {
      MonthsGrow(d.year, d.month, 12);
    }
  }

  predicate Before(a: Date, b: Date) {
    a.year < b.year || (a.year == b.year && (a.month < b.month || (a.month == b.month && a.day < b.day)))
  }

  // The calendar order is the order of the days.
  lemma OrdinalOrders(a: Date, b: Date)
    requires IsDate(a) && IsDate(b)
    ensures Before(a, b) <==> Ordinal(a) < Ordinal(b)
    ensures Ordinal(a) == Ordinal(b) ==> a == b
  {
    if Before(a, b) {
      OrdinalGrows(a, b);
    } else if Before(b, a) {
      OrdinalGrows(b, a);
    }
  }

  lemma OrdinalGrows(a: Date, b: Date)
    requires IsDate(a) && IsDate(b) && Before(a, b)
    ensures Ordinal(a) < Ordinal(b)
  {
    if a.year < b.year {
      WithinYear(a);
      YearsGrow(a.year, b.year);
    } else if a.month < b.month {
      MonthsGrow(a.year, a.month, b.month);
    }
  }

  // ----- Texts -----

  function Digit(n: nat): (c: char)
    requires n < 10
    ensures '0' <= c <= '9' && (c as nat) == '0' as nat + n
  {
    ('0' as nat + n) as char
  }

  function DigitValue(c: char): (v: Option<nat>)
    ensures v.Some? ==> v.value < 10 && Digit(v.value) == c
  {
    if '0' <= c <= '9' then Some((c - '0') as nat) else None
  }

  lemma DigitRoundTrip(n: nat)
    requires n < 10
    ensures DigitValue(Digit(n)) == Some(n)
  {
  }

  function Two(n: nat): (s: string)
    requires n < 100
    ensures |s| == 2 && '0' <= s[0] <= '9' && '0' <= s[1] <= '9'
    ensures s == "24" ==> n == 24
  {
    [Digit(n / 10), Digit(n % 10)]
  }

  function ParseTwo(s: string): (v: Option<nat>)
    requires |s| == 2
    ensures v.Some? ==> v.value < 100
  {
    var a, b := DigitValue(s[0]), DigitValue(s[1]);
    if a.Some? && b.Some? then Some(10 * a.value + b.value) else None
  }

  lemma TwoRoundTrip(n: nat)
    requires n < 100
    ensures ParseTwo(Two(n)) == Some(n)
  {
    DigitRoundTrip(n / 10);
    DigitRoundTrip(n % 10);
  }

  function FormatDate(d: Date): (s: string)
    requires IsDate(d)
    ensures |s| == 10 && forall i :: 0 <= i < 10 ==> s[i] != 'T'
  {
    var c, y, m, n := Two(d.year / 100), Two(d.year % 100), Two(d.month), Two(d.day);
    [c[0], c[1], y[0], y[1], '-', m[0], m[1], '-', n[0], n[1]]
  }

  /** The calendar form YYYY-MM-DD. */
  function ParseDate(s: string): (d: Option<Date>)
    ensures d.Some? ==> IsDate(d.value)
  {
    if |s| != 10 || s[4] != '-' || s[7] != '-' then None
    else
      var c, y, m, n := ParseTwo(s[..2]), ParseTwo(s[2..4]), ParseTwo(s[5..7]), ParseTwo(s[8..]);
      if c.None? || y.None? || m.None? || n.None? then None
      else
        var d := Date(100 * c.value + y.value, m.value, n.value);
        if IsDate(d) then Some(d) else None
  }

  lemma DateRoundTrip(d: Date)
    requires IsDate(d)
    ensures ParseDate(FormatDate(d)) == Some(d)
  {
    var s := FormatDate(d);
    assert s[..2] == Two(d.year / 100) && s[2..4] == Two(d.year % 100);
    assert s[5..7] == Two(d.month) && s[8..] == Two(d.day);
    TwoRoundTrip(d.year / 100);
    TwoRoundTrip(d.year % 100);
    TwoRoundTrip(d.month);
    TwoRoundTrip(d.day);
  }

  // No other text is read as a date.
  lemma DateForm(s: string)
    requires ParseDate(s).Some?
    ensures |s| == 10 && FormatDate(ParseDate(s).value) == s
  {
    var d := ParseDate(s).value;
    YearForm(s[..2], s[2..4], d.year);
    TwoForm(s[5..7]);
    TwoForm(s[8..]);
    assert FormatDate(d) == Two(d.year / 100) + Two(d.year % 100) + "-" + Two(d.month) + "-" + Two(d.day);
    assert s == s[..2] + s[2..4] + "-" + s[5..7] + "-" + s[8..];
  }

  lemma YearForm(s: string, t: string, year: nat)
    requires |s| == |t| == 2 && ParseTwo(s).Some? && ParseTwo(t).Some? && year == 100 * ParseTwo(s).value + ParseTwo(t).value
    ensures year / 100 < 100 && Two(year / 100) == s && Two(year % 100) == t
  {
    TwoForm(s);
    TwoForm(t);
  }

  lemma TwoForm(s: string)
    requires |s| == 2 && ParseTwo(s).Some?
    ensures Two(ParseTwo(s).value) == s
  {
  }

  /** A clock time within a day, in seconds. */
  function FormatClock(t: nat): (s: string)
    requires t < DAY
    ensures |s| == 8 && (forall i :: 0 <= i < 8 ==> s[i] != 'T') && s[..2] == Two(t / 3600)
  {
    var h, m, n := Two(t / 3600), Two(t / 60 % 60), Two(t % 60);
    [h[0], h[1], ':', m[0], m[1], ':', n[0], n[1]]
  }

  function ParseClock(s: string): (t: Option<nat>)
    ensures t.Some? ==> t.value < DAY
  {
    if |s| != 8 || s[2] != ':' || s[5] != ':' then None
    else
      var h, m, n := ParseTwo(s[..2]), ParseTwo(s[3..5]), ParseTwo(s[6..]);
      if h.Some? && m.Some? && n.Some? && h.value < 24 && m.value < 60 && n.value < 60
      then Some(3600 * h.value + 60 * m.value + n.value) else None
  }

  // No other text is read as a clock time.
  lemma ClockForm(s: string)
    requires ParseClock(s).Some?
    ensures |s| == 8 && ParseClock(s).value < DAY && FormatClock(ParseClock(s).value) == s
  {
    var t := ParseClock(s).value;
    TwoForm(s[..2]);
    TwoForm(s[3..5]);
    TwoForm(s[6..]);
    HourForm(ParseTwo(s[..2]).value, ParseTwo(s[3..5]).value, ParseTwo(s[6..]).value);
    assert FormatClock(t) == Two(t / 3600) + ":" + Two(t / 60 % 60) + ":" + Two(t % 60);
    assert s == s[..2] + ":" + s[3..5] + ":" + s[6..];
  }

  lemma HourForm(h: nat, m: nat, n: nat)
    requires m < 60 && n < 60
    ensures var t := 3600 * h + 60 * m + n; t / 3600 == h && t / 60 % 60 == m && t % 60 == n
  {
    var t := 3600 * h + 60 * m + n;
    assert t / 60 == 60 * h + m;
  }

  lemma ClockRoundTrip(t: nat)
    requires t < DAY
    ensures ParseClock(FormatClock(t)) == Some(t)
  {
    var s := FormatClock(t);
    assert s[..2] == Two(t / 3600) && s[3..5] == Two(t / 60 % 60) && s[6..] == Two(t % 60);
    TwoRoundTrip(t / 3600);
    TwoRoundTrip(t / 60 % 60);
    TwoRoundTrip(t % 60);
    ClockParts(t);
  }

  lemma ClockParts(t: nat)
    ensures t == 3600 * (t / 3600) + 60 * (t / 60 % 60) + t % 60
  {
    assert t / 60 / 60 == t / 3600;
  }

  function FormatDateTime(d: Date, t: nat): (s: string)
    requires IsDate(d) && t < DAY
    ensures |s| == 19
  {
    FormatDate(d) + "T" + FormatClock(t)
  }

  const MIDNIGHT_24 := "T24:00:00"

  predicate EndsWith(s: string, suffix: string) { |suffix| <= |s| && s[|s| - |suffix|..] == suffix }

  predicate OccursAt(s: string, part: string, i: nat) {
    i + |part| <= |s| && forall k :: 0 <= k < |part| ==> s[i + k] == part[k]
  }

  predicate Contains(s: string, part: string) { exists i :: 0 <= i <= |s| && OccursAt(s, part, i) }

  /** A wall time. */
  datatype Point = Point(date: Date, second: nat)

  predicate IsPoint(p: Point) { IsDate(p.date) && p.second < DAY }

  predicate Earlier(a: Point, b: Point) { Before(a.date, b.date) || (a.date == b.date && a.second < b.second) }

  /** Seconds since the beginning of year 1. */
  function Seconds(p: Point): nat
    requires IsPoint(p)
  {
    Ordinal(p.date) * DAY + p.second
  }

  // Wall times of one fixed-offset zone are ordered and identified by their seconds.
  lemma SecondsOrder(a: Point, b: Point)
    requires IsPoint(a) && IsPoint(b)
    ensures Earlier(a, b) <==> Seconds(a) < Seconds(b)
    ensures Seconds(a) == Seconds(b) ==> a == b
  {
    OrdinalOrders(a.date, b.date);
  }

  function Midnight(d: Date): Point { Point(d, 0) }

  /**
    The instant that a written value means (`_value_datetime`). A bare end date is inclusive, and 24:00 is the
    beginning of the next day; without a next day there is no instant.
   */
  function Instant(value: string, end: bool): (t: Option<Point>)
    ensures t.Some? ==> IsPoint(t.value)
  {
    if |value| == 10 then
      var d := ParseDate(value);
      if d.None? || (end && d.value == LAST_DATE) then None
      else Some(Midnight(if end then NextDate(d.value) else d.value))
    else if EndsWith(value, MIDNIGHT_24) then
      var d := if |value| >= 10 then ParseDate(value[..10]) else None;
      if d.None? || d.value == LAST_DATE then None else Some(Midnight(NextDate(d.value)))
    else if |value| == 19 && value[10] == 'T' then
      var d, t := ParseDate(value[..10]), ParseClock(value[11..]);
      if d.None? || t.None? then None else Some(Point(d.value, t.value))
    else None
  }

  /** A written value means a moment: a date, as an end including that day; the end of a day; or a date and a clock time. */
  ghost predicate Means(value: string, end: bool, p: Point) {
    if |value| == 10 then p.second == 0 && if end then exists d :: Names(value, d) && IsTomorrow(d, p.date) else Names(value, p.date)
    else if EndsWith(value, "T24:00:00") then p.second == 0 && |value| >= 10 && exists d :: Names(value[..10], d) && IsTomorrow(d, p.date)
    else IsPoint(p) && value == FormatDateTime(p.date, p.second)
  }

  ghost predicate Names(s: string, d: Date) { IsDate(d) && s == FormatDate(d) }

  ghost predicate IsTomorrow(d: Date, next: Date) { IsDate(d) && IsDate(next) && Ordinal(next) == Ordinal(d) + 1 }

  lemma NamesExactly(s: string, d: Date)
    ensures Names(s, d) <==> ParseDate(s) == Some(d)
  {
    if ParseDate(s).Some? {
      DateForm(s);
    }
    if IsDate(d) && s == FormatDate(d) {
      DateRoundTrip(d);
    }
  }

  lemma TomorrowIsNext(d: Date, next: Date)
    requires IsDate(d)
    ensures IsTomorrow(d, next) <==> d != LAST_DATE && next == NextDate(d)
  {
    if d != LAST_DATE {
      NextIsTomorrow(d);
      if IsTomorrow(d, next) {
        OrdinalOrders(next, NextDate(d));
      }
    } else if IsTomorrow(d, next) {
      OrdinalOrders(d, next);
    }
  }

  // Which values have an instant, and which one.
  lemma InstantExactly(value: string, end: bool, p: Point)
    requires IsPoint(p) == true
    ensures Instant(value, end) == Some(p) <==> Means(value, end, p)
  {
    if |value| == 10 {
      DateMeans(value, end, p);
    } else if EndsWith(value, "T24:00:00") {
      LegacyMeans(value, end, p);
    } else {
      ClockMeans(value, end, p);
    }
  }

  lemma TomorrowExactly(s: string, next: Date)
    ensures (exists d :: Names(s, d) && IsTomorrow(d, next)) <==>
              var d := ParseDate(s); d.Some? && d.value != LAST_DATE && next == NextDate(d.value)
  {
    if d :| Names(s, d) && IsTomorrow(d, next) {
      NamesExactly(s, d);
      TomorrowIsNext(d, next);
    }
    if ParseDate(s).Some? {
      NamesExactly(s, ParseDate(s).value);
      TomorrowIsNext(ParseDate(s).value, next);
    }
  }

  lemma DateMeans(value: string, end: bool, p: Point)
    requires IsPoint(p) == true && |value| == 10
    ensures Instant(value, end) == Some(p) <==> Means(value, end, p)
  {
    TomorrowExactly(value, p.date);
    NamesExactly(value, p.date);
  }

  lemma LegacyMeans(value: string, end: bool, p: Point)
    requires IsPoint(p) == true && |value| != 10 && EndsWith(value, "T24:00:00")
    ensures Instant(value, end) == Some(p) <==> Means(value, end, p)
  {
    if |value| >= 10 {
      TomorrowExactly(value[..10], p.date);
    }
  }

  lemma ClockMeans(value: string, end: bool, p: Point)
    requires IsPoint(p) == true && |value| != 10 && !EndsWith(value, "T24:00:00")
    ensures Instant(value, end) == Some(p) <==> Means(value, end, p)
  {
    if Instant(value, end) == Some(p) {
      DateForm(value[..10]);
      ClockForm(value[11..]);
      assert value == value[..10] + "T" + value[11..];
    }
    if value == FormatDateTime(p.date, p.second) {
      InstantOfDateTime(p.date, p.second, end);
    }
  }

  lemma OccurrencesOfMark(s: string)
    ensures forall i: nat :: OccursAt(s, "T24:", i) ==> s[i] == 'T' && s[i + 1] == '2' && s[i + 2] == '4'
  {
    forall i: nat | OccursAt(s, "T24:", i) ensures s[i] == 'T' && s[i + 1] == '2' && s[i + 2] == '4' {
      assert s[i + 0] == "T24:"[0] && s[i + 1] == "T24:"[1] && s[i + 2] == "T24:"[2];
    }
  }

  // A written date and time never has the legacy form.
  lemma DateTimeIsNotLegacy(d: Date, t: nat)
    requires IsDate(d) && t < DAY
    ensures !Contains(FormatDateTime(d, t), "T24:") && !EndsWith(FormatDateTime(d, t), MIDNIGHT_24)
  {
    OccurrencesOfMark(FormatDateTime(d, t));
    OnlyT(d, t);
  }

  // The letter T stands only between date and clock, and the hour is not 24.
  lemma OnlyT(d: Date, t: nat)
    requires IsDate(d) && t < DAY
    ensures var s := FormatDateTime(d, t);
            (forall i :: 0 <= i < 19 && s[i] == 'T' ==> i == 10) && (s[11] != '2' || s[12] != '4')
  {
    var s, clock := FormatDateTime(d, t), FormatClock(t);
    assert forall i :: 0 <= i < 10 ==> s[i] == FormatDate(d)[i];
    assert forall i :: 0 <= i < 8 ==> s[i + 11] == clock[i];
    assert clock[0] == clock[..2][0] && clock[1] == clock[..2][1];
  }

  lemma InstantOfDateTime(d: Date, t: nat, end: bool)
    requires IsDate(d) && t < DAY
    ensures Instant(FormatDateTime(d, t), end) == Some(Point(d, t))
  {
    var s := FormatDateTime(d, t);
    assert s[..10] == FormatDate(d) && s[11..] == FormatClock(t) && s[10] == 'T';
    DateTimeIsNotLegacy(d, t);
    DateRoundTrip(d);
    ClockRoundTrip(t);
  }

  /** The legacy end-of-day form is read, but never sent: it becomes the beginning of the next day. */
  function Canonical(value: string): (r: Option<string>)
    ensures r.Some? && !Contains(value, "T24:") ==> r.value == value
  {
    if !Contains(value, "T24:") then Some(value)
    else if !EndsWith(value, MIDNIGHT_24) || Instant(value, false).None? then None
    else Some(FormatDateTime(NextDate(ParseDate(value[..10]).value), 0))
  }

  // Rewriting the legacy form keeps the instant and leaves nothing to rewrite.
  lemma CanonicalKeepsInstant(value: string, end: bool)
    requires Canonical(value).Some?
    ensures Instant(Canonical(value).value, end) == Instant(value, end)
    ensures !Contains(Canonical(value).value, "T24:") && Canonical(Canonical(value).value) == Canonical(value)
  {
    if Contains(value, "T24:") {
      var next := NextDate(ParseDate(value[..10]).value);
      InstantOfDateTime(next, 0, end);
      DateTimeIsNotLegacy(next, 0);
    }
  }

  // ----- What a calendar event is written as -----

  /** A calendar input: a whole day, or a wall time. */
  datatype Moment = Day(date: Date) | At(date: Date, second: nat)

  predicate IsMoment(m: Moment) { IsDate(m.date) && (m.At? ==> m.second < DAY) }

  function SecondOf(m: Moment): nat { if m.At? then m.second else 0 }

  function MomentInstant(m: Moment): Point { Point(m.date, SecondOf(m)) }

  datatype DateMode = DateOnly | DateAndTime | OtherMode

  datatype SpanError = MixedTypes | AllDayOnly | EndNotAfterStart | TimeStep | Unsupported

  datatype Span = Written(start: string, end: string) | Rejected(error: SpanError)

  function PreviousDate(d: Date): (p: Date)
    requires IsDate(d) && d != Date(1, 1, 1)
    ensures IsDate(p) && p != LAST_DATE && NextDate(p) == d
  {
    if d.day > 1 then Date(d.year, d.month, d.day - 1)
    else if d.month > 1 then Date(d.year, d.month - 1, DaysInMonth(d.year, d.month - 1))
    else Date(d.year - 1, 12, 31)
  }

  function FormatSpan(start: Moment, end: Moment, mode: DateMode): (r: Span)
    requires IsMoment(start) && IsMoment(end)
  {
    if start.At? != end.At? then Rejected(MixedTypes)
    else if mode == DateOnly then
      if SecondOf(start) != 0 || SecondOf(end) != 0 then Rejected(AllDayOnly)
      else if !Before(start.date, end.date) then Rejected(EndNotAfterStart)
      else Written(FormatDate(start.date), FormatDate(PreviousDate(end.date)))
    else if mode != DateAndTime then Rejected(Unsupported)
    else if !Earlier(MomentInstant(start), MomentInstant(end)) then Rejected(EndNotAfterStart)
    else if SecondOf(start) % 900 != 0 || SecondOf(end) % 900 != 0 then Rejected(TimeStep)
    else Written(FormatDateTime(start.date, SecondOf(start)), FormatDateTime(end.date, SecondOf(end)))
  }

  lemma InstantOfDate(d: Date)
    requires IsDate(d)
    ensures Instant(FormatDate(d), false) == Some(Midnight(d))
    ensures d != LAST_DATE ==> Instant(FormatDate(d), true) == Some(Midnight(NextDate(d)))
    ensures !Contains(FormatDate(d), "T24:")
  {
    DateRoundTrip(d);
    OccurrencesOfMark(FormatDate(d));
  }

  // What is written means exactly the event: reading it back gives both instants, and they are in order.
  lemma SpanRoundTrip(start: Moment, end: Moment, mode: DateMode)
    requires IsMoment(start) && IsMoment(end) && FormatSpan(start, end, mode).Written?
    ensures Instant(FormatSpan(start, end, mode).start, false) == Some(MomentInstant(start))
    ensures Instant(FormatSpan(start, end, mode).end, true) == Some(MomentInstant(end))
    ensures Earlier(MomentInstant(start), MomentInstant(end))
  {
    StartRoundTrip(start, end, mode);
    EndRoundTrip(start, end, mode);
    SpanRefuses(start, end, mode);
  }

  lemma StartRoundTrip(start: Moment, end: Moment, mode: DateMode)
    requires IsMoment(start) && IsMoment(end) && FormatSpan(start, end, mode).Written?
    ensures Instant(FormatSpan(start, end, mode).start, false) == Some(MomentInstant(start))
  {
    if mode == DateOnly {
      InstantOfDate(start.date);
    } else {
      InstantOfDateTime(start.date, SecondOf(start), false);
    }
  }

  lemma EndRoundTrip(start: Moment, end: Moment, mode: DateMode)
    requires IsMoment(start) && IsMoment(end) && FormatSpan(start, end, mode).Written?
    ensures Instant(FormatSpan(start, end, mode).end, true) == Some(MomentInstant(end))
  {
    if mode == DateOnly {
      InstantOfDate(PreviousDate(end.date));
    } else {
      InstantOfDateTime(end.date, SecondOf(end), true);
    }
  }

  // Nothing that is written needs rewriting.
  lemma SpanIsCanonical(start: Moment, end: Moment, mode: DateMode)
    requires IsMoment(start) && IsMoment(end) && FormatSpan(start, end, mode).Written?
    ensures var span := FormatSpan(start, end, mode); Canonical(span.start) == Some(span.start) && Canonical(span.end) == Some(span.end)
  {
    if mode == DateOnly {
      InstantOfDate(start.date);
      InstantOfDate(PreviousDate(end.date));
    } else {
      DateTimeIsNotLegacy(start.date, SecondOf(start));
      DateTimeIsNotLegacy(end.date, SecondOf(end));
    }
  }

  // Exactly the events that PointT cannot hold are refused.
  lemma SpanRefuses(start: Moment, end: Moment, mode: DateMode)
    requires IsMoment(start) && IsMoment(end)
    ensures FormatSpan(start, end, mode).Written? <==>
              && start.At? == end.At? && Earlier(MomentInstant(start), MomentInstant(end))
              && (mode == DateOnly ==> SecondOf(start) == 0 && SecondOf(end) == 0)
              && (mode == DateAndTime ==> SecondOf(start) % 900 == 0 && SecondOf(end) % 900 == 0)
              && mode != OtherMode
    ensures FormatSpan(start, end, mode) == Rejected(MixedTypes) <==> start.At? != end.At?
    ensures FormatSpan(start, end, mode) == Rejected(Unsupported) <==> start.At? == end.At? && mode == OtherMode
    ensures FormatSpan(start, end, mode) == Rejected(AllDayOnly) <==>
              start.At? == end.At? && mode == DateOnly && (SecondOf(start) > 0 || SecondOf(end) > 0)
    ensures FormatSpan(start, end, mode) == Rejected(TimeStep) ==> Earlier(MomentInstant(start), MomentInstant(end))
    ensures FormatSpan(start, end, mode) == Rejected(EndNotAfterStart) ==> !Earlier(MomentInstant(start), MomentInstant(end))
  {
  }
}
