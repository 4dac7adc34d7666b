/**
  Weekly switch programs (switch_programs.py): strict validation, the level in effect at a time of the
  week, and the minutes until the next switch. The week is circular and has 10080 minutes.
 */
module SwitchPrograms {
  import opened Common

  const DAYS: seq<string> := ["Mo", "Tu", "We", "Th", "Fr", "Sa", "Su"]
  const MINUTES_PER_DAY: int := 1440
  const WEEK: int := 10080
  const MAX_SWITCH_POINTS: int := 168
  const MAX_SWITCH_POINTS_PER_DAY: int := 48

  datatype SwitchPoint = SwitchPoint(day: nat, minute: nat, level: string)

  predicate IsPoint(p: SwitchPoint) { p.day < 7 && p.minute < MINUTES_PER_DAY }

  /** The minute of the week of a point. */
  function Position(p: SwitchPoint): int { p.day * MINUTES_PER_DAY + p.minute }

  /** How long ago, and in how many minutes (at least one), a point takes over. */
  function Back(p: SwitchPoint, time: int): (m: int)
    ensures 0 <= m < WEEK
  {
    (time - Position(p)) % WEEK
  }

  function Ahead(p: SwitchPoint, time: int): (m: int)
    ensures 1 <= m <= WEEK
  {
    (Position(p) - time - 1) % WEEK + 1
  }

  /** A validated program: at least one point, and no two at the same time of the week. */
  ghost predicate IsProgram(points: seq<SwitchPoint>) {
    && points != [] && (forall i :: 0 <= i < |points| ==> IsPoint(points[i]))
    && forall i, j :: 0 <= i < j < |points| ==> Position(points[i]) != Position(points[j])
  }

  /** The point that switched last, the first of the nearest ones (`min` with a key). */
  function LastPoint(points: seq<SwitchPoint>, time: int): (p: SwitchPoint)
    requires points != []
    ensures p in points && forall q :: q in points ==> Back(p, time) <= Back(q, time)
  {
    if |points| == 1 then points[0]
    else
      var earlier, last := LastPoint(points[..|points| - 1], time), points[|points| - 1];
      assert forall q :: q in points ==> q in points[..|points| - 1] || q == last;
      if Back(last, time) < Back(earlier, time) then last else earlier
  }

  function MinuteOfWeek(day: int, minute: int): int { day * MINUTES_PER_DAY + minute }

  function ActiveLevel(points: seq<SwitchPoint>, day: int, minute: int): Option<string> {
    if points == [] then None else Some(LastPoint(points, MinuteOfWeek(day, minute)).level)
  }

  function SoonestAhead(points: seq<SwitchPoint>, time: int): (n: int)
    requires points != []
    ensures 1 <= n <= WEEK && (forall q :: q in points ==> n <= Ahead(q, time)) && exists q :: q in points && n == Ahead(q, time)
  {
    if |points| == 1 then
      assert points[0] in points;
      Ahead(points[0], time)
    else
      var earlier, last := SoonestAhead(points[..|points| - 1], time), points[|points| - 1];
      assert forall q :: q in points ==> q in points[..|points| - 1] || q == last;
      assert forall q :: q in points[..|points| - 1] ==> q in points;
      assert last in points;
      Min(earlier, Ahead(last, time))
  }

  function NextSwitchInMinutes(points: seq<SwitchPoint>, day: int, minute: int): Option<int> {
    if points == [] then None else Some(SoonestAhead(points, MinuteOfWeek(day, minute)))
  }

  lemma ModShift(a: int, k: int)
    requires 0 <= k && a % WEEK + k < WEEK
    ensures (a + k) % WEEK == a % WEEK + k
  {
    assert a == WEEK * (a / WEEK) + a % WEEK;
    assert a + k == WEEK * (a / WEEK) + (a % WEEK + k);
    ModOf(a / WEEK, a % WEEK + k);
  }

  lemma ModOf(q: int, r: int)
    requires 0 <= r < WEEK
    ensures (WEEK * q + r) % WEEK == r
  {
  }

  // ----- What the minutes mean: an endless calendar, told in minutes from a Monday's midnight -----

  /** The weekday and the minute of the day at a moment. */
  ghost predicate IsAt(moment: int, day: int, minute: int) {
    (moment / 1440) % 7 == day && moment % 1440 == minute
  }

  ghost predicate Occurs(p: SwitchPoint, moment: int) { IsAt(moment, p.day, p.minute) }

  lemma WeekOf(moment: int, day: int, minute: int)
    requires 0 <= day < 7 && 0 <= minute < 1440
    ensures IsAt(moment, day, minute) <==> SameMinute(moment, 1440 * day + minute)
  {
    var days, weeks := moment / 1440, (moment / 1440) / 7;
    assert moment == 1440 * days + moment % 1440 && days == 7 * weeks + days % 7;
    assert moment == WEEK * weeks + (1440 * (days % 7) + moment % 1440);
    ModOf(weeks, 1440 * (days % 7) + moment % 1440);
    ModOf(0, 1440 * day + minute);
  }

  lemma OccursExactly(p: SwitchPoint, moment: int)
    requires IsPoint(p)
    ensures Occurs(p, moment) <==> SameMinute(moment, Position(p))
  {
    WeekOf(moment, p.day, p.minute);
  }

  lemma Apart(a: int, b: int, r: int)
    requires 0 <= r < WEEK && (a - b - r) % WEEK == 0
    ensures SameMinute(a, b) <==> r == 0
  {
    var q := (a - b - r) / WEEK;
    assert a == b + r + WEEK * q;
    ModSum(b, r, q);
  }

  lemma ModSum(b: int, r: int, q: int)
    requires 0 <= r < WEEK
    ensures SameMinute(b + r + WEEK * q, b) <==> r == 0
  {
    var s := b % WEEK + r;
    assert b + r + WEEK * q == WEEK * (b / WEEK + q) + s;
    if s < WEEK {
      ModOf(b / WEEK + q, s);
    } else {
      assert WEEK * (b / WEEK + q) + s == WEEK * (b / WEEK + q + 1) + (s - WEEK);
      ModOf(b / WEEK + q + 1, s - WEEK);
    }
  }

  // A point switched as long ago as `Back` says, and not since; it switches in as many minutes as `Ahead` says, and not before.
  lemma BackExactly(p: SwitchPoint, time: int, moment: int)
    requires IsPoint(p) && time - Back(p, time) <= moment <= time
    ensures Occurs(p, moment) <==> moment == time - Back(p, time)
  {
    var r, q := Back(p, time) - (time - moment), (time - Position(p)) / WEEK;
    assert moment - Position(p) - r == WEEK * q + 0;
    ModOf(q, 0);
    Apart(moment, Position(p), r);
    OccursExactly(p, moment);
  }

  lemma AheadExactly(p: SwitchPoint, time: int, moment: int)
    requires IsPoint(p) && time < moment <= time + Ahead(p, time)
    ensures Occurs(p, moment) <==> moment == time + Ahead(p, time)
  {
    BackAndAhead(p, time);
    if moment < time + Ahead(p, time) {
      BackGrows(p, time, moment - time);
    } else {
      BackAtSwitch(p, time);
    }
    BackExactly(p, moment, moment);
  }

  /** No point of the program switches after one moment, up to another. */
  ghost predicate NoneSwitches(points: seq<SwitchPoint>, after: int, until: int) {
    forall t, q :: after < t <= until && q in points ==> !Occurs(q, t)
  }

  /** A point of the program switched at this earlier moment, and none since. */
  ghost predicate LastSwitched(points: seq<SwitchPoint>, moment: int, p: SwitchPoint, since: int) {
    p in points && since <= moment && Occurs(p, since) && NoneSwitches(points, since, moment)
  }

  /** A point of the program switches at this later moment, and none before. */
  ghost predicate SwitchesNext(points: seq<SwitchPoint>, moment: int, next: int) {
    moment < next && (exists p :: p in points && Occurs(p, next)) && NoneSwitches(points, moment, next - 1)
  }

  // Some point has switched last, and it is the active one.
  lemma LastPointExactly(points: seq<SwitchPoint>, moment: int, p: SwitchPoint, since: int)
    requires IsProgram(points) == true
    ensures LastSwitched(points, moment, p, since) <==> p == LastPoint(points, moment) && since == moment - Back(p, moment)
  {
    var last := LastPoint(points, moment);
    LastHasSwitched(points, moment, last, moment - Back(last, moment));
    if LastSwitched(points, moment, p, since) {
      OnlyOneLast(points, moment, p, since, last, moment - Back(last, moment));
    }
  }

  lemma LastHasSwitched(points: seq<SwitchPoint>, moment: int, last: SwitchPoint, since: int)
    requires IsProgram(points) == true && last == LastPoint(points, moment) && since == moment - Back(last, moment)
    ensures LastSwitched(points, moment, last, since) == true
  {
    IsSwitchPoint(points, last);
    BackExactly(last, moment, since);
    forall t, q | since < t <= moment && q in points ensures !Occurs(q, t) {
      IsSwitchPoint(points, q);
      BackExactly(q, moment, t);
    }
  }

  lemma OnlyOneLast(points: seq<SwitchPoint>, moment: int, p: SwitchPoint, a: int, q: SwitchPoint, b: int)
    requires IsProgram(points) == true && LastSwitched(points, moment, p, a) && LastSwitched(points, moment, q, b)
    ensures p == q && a == b
  {
    assert a == b;
    IsSwitchPoint(points, p);
    IsSwitchPoint(points, q);
    OnePointAt(points, p, q);
  }

  lemma NextSwitchExactly(points: seq<SwitchPoint>, moment: int, n: int, next: int)
    requires IsProgram(points) == true && n == SoonestAhead(points, moment) && next == moment + n
    ensures SwitchesNext(points, moment, next) == true
  {
    var p :| p in points && n == Ahead(p, moment);
    IsSwitchPoint(points, p);
    AheadExactly(p, moment, next);
    forall t, q | moment < t <= next - 1 && q in points ensures !Occurs(q, t) {
      IsSwitchPoint(points, q);
      AheadExactly(q, moment, t);
    }
  }

  lemma AtMoment(points: seq<SwitchPoint>, day: int, minute: int, moment: int)
    requires IsProgram(points) == true && 0 <= day < 7 && 0 <= minute < 1440 && IsAt(moment, day, minute)
    ensures LastPoint(points, MinuteOfWeek(day, minute)) == LastPoint(points, moment)
    ensures SoonestAhead(points, MinuteOfWeek(day, minute)) == SoonestAhead(points, moment)
  {
    WeekOf(moment, day, minute);
    WeekRepeats(points, MinuteOfWeek(day, minute), moment);
  }

  // At any moment of a weekday and time, the level in effect is that of the point that switched last before it, or just then.
  lemma ActiveExactly(points: seq<SwitchPoint>, day: int, minute: int, moment: int) returns (p: SwitchPoint, since: int)
    requires IsProgram(points) == true && 0 <= day < 7 && 0 <= minute < 1440 && IsAt(moment, day, minute) == true
    ensures LastSwitched(points, moment, p, since) == true && ActiveLevel(points, day, minute) == Some(p.level)
  {
    p := LastPoint(points, moment);
    since := moment - Back(p, moment);
    LastHasSwitched(points, moment, p, since);
    AtMoment(points, day, minute, moment);
  }

  // The next switch is as many minutes away as the program says, and no point switches before.
  lemma NextExactly(points: seq<SwitchPoint>, day: int, minute: int, moment: int, next: int)
    requires IsProgram(points) == true && 0 <= day < 7 && 0 <= minute < 1440 && IsAt(moment, day, minute) == true
    ensures NextSwitchInMinutes(points, day, minute).Some?
    ensures next == moment + NextSwitchInMinutes(points, day, minute).value ==> SwitchesNext(points, moment, next) == true
  {
    AtMoment(points, day, minute, moment);
    if next == moment + SoonestAhead(points, moment) {
      NextSwitchExactly(points, moment, SoonestAhead(points, moment), next);
    }
  }

  lemma IsSwitchPoint(points: seq<SwitchPoint>, p: SwitchPoint)
    requires IsProgram(points) && p in points
    ensures IsPoint(p)
  {
  }

  // Looking back and ahead complete the week.
  lemma BackAndAhead(p: SwitchPoint, time: int)
    ensures Ahead(p, time) == WEEK - Back(p, time)
  {
    var a := time - Position(p);
    assert -a - 1 == WEEK * (-(a / WEEK) - 1) + (WEEK - 1 - a % WEEK);
    ModOf(-(a / WEEK) - 1, WEEK - 1 - a % WEEK);
  }

  // Until a point takes over again, the time since its last switch just grows.
  lemma BackGrows(p: SwitchPoint, time: int, k: int)
    requires 0 <= k < Ahead(p, time)
    ensures Back(p, time + k) == Back(p, time) + k
  {
    BackAndAhead(p, time);
    ModShift(time - Position(p), k);
    assert time + k - Position(p) == time - Position(p) + k;
  }

  lemma BackAtSwitch(p: SwitchPoint, time: int)
    ensures Back(p, time + Ahead(p, time)) == 0
  {
    BackAndAhead(p, time);
    var a := time - Position(p);
    assert a + WEEK - a % WEEK == WEEK * (a / WEEK + 1) + 0;
    ModOf(a / WEEK + 1, 0);
  }

  // Two points that switched equally long ago are the same point.
  lemma SamePosition(points: seq<SwitchPoint>, p: SwitchPoint, q: SwitchPoint, time: int)
    requires IsProgram(points) && p in points && q in points && Back(p, time) == Back(q, time)
    ensures p == q
  {
    var a, b := time - Position(p), time - Position(q);
    assert a - b == WEEK * (a / WEEK - b / WEEK);
    assert -WEEK < a - b < WEEK;
    var i :| 0 <= i < |points| && points[i] == p;
    var j :| 0 <= j < |points| && points[j] == q;
  }

  /** At both times every point switched equally long ago, and takes over equally soon. */
  ghost predicate AlikeAt(points: seq<SwitchPoint>, a: int, b: int) {
    forall p :: p in points ==> Back(p, a) == Back(p, b) && Ahead(p, a) == Ahead(p, b)
  }

  predicate SameMinute(a: int, b: int) { a % WEEK == b % WEEK }

  // The minute of the week counts alone: whole weeks change nothing.
  lemma WeekRepeats(points: seq<SwitchPoint>, time: int, later: int)
    requires IsProgram(points) == true && SameMinute(time, later) == true
    ensures LastPoint(points, later) == LastPoint(points, time)
    ensures SoonestAhead(points, later) == SoonestAhead(points, time)
  {
    LikeLater(points, time, later);
    SameLast(points, later, time);
    SameAhead(points, later, time);
  }

  lemma LikeLater(points: seq<SwitchPoint>, time: int, later: int)
    requires SameMinute(time, later) == true
    ensures AlikeAt(points, later, time) == true
  {
    forall p | p in points ensures Back(p, later) == Back(p, time) && Ahead(p, later) == Ahead(p, time) {
      BackRepeats(p, time, later);
    }
  }

  lemma BackRepeats(p: SwitchPoint, time: int, later: int)
    requires SameMinute(time, later)
    ensures Back(p, later) == Back(p, time) && Ahead(p, later) == Ahead(p, time)
  {
    var a, weeks := time - Position(p), later / WEEK - time / WEEK;
    ModOf(a / WEEK + weeks, a % WEEK);
    assert later - Position(p) == WEEK * (a / WEEK + weeks) + a % WEEK;
    BackAndAhead(p, time);
    BackAndAhead(p, later);
  }

  lemma SameLast(points: seq<SwitchPoint>, a: int, b: int)
    requires IsProgram(points) && AlikeAt(points, a, b) == true
    ensures LastPoint(points, a) == LastPoint(points, b)
  {
    var p, q := LastPoint(points, a), LastPoint(points, b);
    assert Back(p, a) == Back(p, b) && Back(q, a) == Back(q, b);
    SamePosition(points, p, q, a);
  }

  lemma SameAhead(points: seq<SwitchPoint>, a: int, b: int)
    requires points != [] && AlikeAt(points, a, b) == true
    ensures SoonestAhead(points, a) == SoonestAhead(points, b)
  {
  }

  // The level in effect does not change before the next switch.
  lemma ConstantUntilSwitch(points: seq<SwitchPoint>, time: int, k: int, moment: int)
    requires IsProgram(points) == true && 0 <= k < SoonestAhead(points, time) && moment == time + k
    ensures LastPoint(points, moment) == LastPoint(points, time)
  {
    var before, after := LastPoint(points, time), LastPoint(points, moment);
    NotReached(points, before, time, k, moment);
    NotReached(points, after, time, k, moment);
    SamePosition(points, before, after, time);
  }

  lemma NotReached(points: seq<SwitchPoint>, p: SwitchPoint, time: int, k: int, moment: int)
    requires p in points && 0 <= k < SoonestAhead(points, time) && moment == time + k
    ensures Back(p, moment) == Back(p, time) + k
  {
    BackGrows(p, time, k);
  }

  // Until the next switch, the minutes to it count down.
  lemma CountsDown(points: seq<SwitchPoint>, time: int, k: int, moment: int)
    requires points != [] && 0 <= k < SoonestAhead(points, time) && moment == time + k
    ensures SoonestAhead(points, moment) == SoonestAhead(points, time) - k
  {
    forall p | p in points ensures Ahead(p, moment) == Ahead(p, time) - k {
      AheadShrinks(p, time, k, moment);
    }
  }

  lemma AheadShrinks(p: SwitchPoint, time: int, k: int, moment: int)
    requires 0 <= k < Ahead(p, time) && moment == time + k
    ensures Ahead(p, moment) == Ahead(p, time) - k
  {
    BackGrows(p, time, k);
    BackAndAhead(p, time);
    BackAndAhead(p, moment);
  }

  /** The only point of the program at this time of the week. */
  ghost predicate StandsAlone(points: seq<SwitchPoint>, p: SwitchPoint, time: int) {
    p in points && Position(p) == time % WEEK && forall q :: q in points && Position(q) == time % WEEK ==> q == p
  }

  lemma SoonestPoint(points: seq<SwitchPoint>, time: int, at: int) returns (p: SwitchPoint)
    requires points != [] && at == time + SoonestAhead(points, time)
    ensures p in points && Back(p, at) == 0
  {
    p :| p in points && SoonestAhead(points, time) == Ahead(p, time);
    BackAtSwitch(p, time);
  }

  lemma JustSwitched(points: seq<SwitchPoint>, p: SwitchPoint, at: int)
    requires IsProgram(points) && p in points && Back(p, at) == 0
    ensures LastPoint(points, at) == p
  {
    SamePosition(points, p, LastPoint(points, at), at);
  }

  lemma AloneAt(points: seq<SwitchPoint>, p: SwitchPoint, at: int)
    requires IsProgram(points) && p in points && Back(p, at) == 0
    ensures StandsAlone(points, p, at)
  {
    PositionOf(p, at);
    forall q | q in points && Position(q) == Position(p) ensures q == p {
      OnePointAt(points, p, q);
    }
  }

  // At the next switch exactly one point stands, and it takes over.
  lemma SwitchTakesOver(points: seq<SwitchPoint>, time: int, at: int) returns (p: SwitchPoint)
    requires IsProgram(points) && at == time + SoonestAhead(points, time)
    ensures StandsAlone(points, p, at) == true && LastPoint(points, at) == p
  {
    p := SoonestPoint(points, time, at);
    AloneAt(points, p, at);
    JustSwitched(points, p, at);
  }

  lemma OnePointAt(points: seq<SwitchPoint>, p: SwitchPoint, q: SwitchPoint)
    requires IsProgram(points) && p in points && q in points && Position(p) == Position(q)
    ensures p == q
  {
    var i :| 0 <= i < |points| && points[i] == p;
    var j :| 0 <= j < |points| && points[j] == q;
  }

  lemma PositionOf(p: SwitchPoint, time: int)
    requires IsPoint(p) && Back(p, time) == 0
    ensures Position(p) == time % WEEK
  {
    var a := time - Position(p);
    assert time == WEEK * (a / WEEK) + Position(p);
    ModOf(a / WEEK, Position(p));
  }

  /** After `k` minutes the same point is active, and the next switch is `k` minutes nearer. */
  ghost predicate NoneBetween(points: seq<SwitchPoint>, time: int, k: int, later: int)
    requires points != []
  {
    LastPoint(points, later) == LastPoint(points, time) && SoonestAhead(points, later) == SoonestAhead(points, time) - k
  }

  lemma BeforeSwitch(points: seq<SwitchPoint>, time: int, k: int, moment: int)
    requires IsProgram(points) == true && 0 <= k < SoonestAhead(points, time) && moment == time + k
    ensures NoneBetween(points, time, k, moment) == true
  {
    ConstantUntilSwitch(points, time, k, moment);
    CountsDown(points, time, k, moment);
  }

  lemma AsMoment(points: seq<SwitchPoint>, time: int, k: int, moment: int, later: int)
    requires IsProgram(points) == true && SameMinute(moment, later) == true && NoneBetween(points, time, k, moment) == true
    ensures NoneBetween(points, time, k, later) == true
  {
    WeekRepeats(points, moment, later);
  }

  lemma AtSwitch(points: seq<SwitchPoint>, time: int, at: int, later: int) returns (p: SwitchPoint)
    requires IsProgram(points) == true && at == time + SoonestAhead(points, time) && SameMinute(at, later) == true
    ensures StandsAlone(points, p, later) == true && LastPoint(points, later) == p
  {
    p := SwitchTakesOver(points, time, at);
    WeekRepeats(points, at, later);
    StillAlone(points, p, at, later);
  }

  lemma StillAlone(points: seq<SwitchPoint>, p: SwitchPoint, at: int, later: int)
    requires StandsAlone(points, p, at) && SameMinute(at, later)
    ensures StandsAlone(points, p, later)
  {
  }

  lemma SameUntilSwitch(points: seq<SwitchPoint>, time: int, k: int, moment: int, later: int)
    requires IsProgram(points) == true && 0 <= k < SoonestAhead(points, time) && moment == time + k && SameMinute(moment, later) == true
    ensures NoneBetween(points, time, k, later) == true
  {
    BeforeSwitch(points, time, k, moment);
    AsMoment(points, time, k, moment, later);
  }

  // Whatever weekday and time comes before the next switch has the same level, and the minutes to the switch count down.
  lemma LevelUntilSwitch(points: seq<SwitchPoint>, day: int, minute: int, k: int, moment: int, laterDay: int, laterMinute: int)
    requires IsProgram(points) == true && points != [] && 0 <= k < NextSwitchInMinutes(points, day, minute).value
    requires moment == MinuteOfWeek(day, minute) + k && SameMinute(moment, MinuteOfWeek(laterDay, laterMinute)) == true
    ensures ActiveLevel(points, laterDay, laterMinute) == ActiveLevel(points, day, minute)
    ensures NextSwitchInMinutes(points, laterDay, laterMinute) == Some(NextSwitchInMinutes(points, day, minute).value - k)
  {
    SameUntilSwitch(points, MinuteOfWeek(day, minute), k, moment, MinuteOfWeek(laterDay, laterMinute));
    AnswersAlike(points, day, minute, k, laterDay, laterMinute);
  }

  lemma AnswersAlike(points: seq<SwitchPoint>, day: int, minute: int, k: int, laterDay: int, laterMinute: int)
    requires points != [] && NoneBetween(points, MinuteOfWeek(day, minute), k, MinuteOfWeek(laterDay, laterMinute)) == true
    ensures ActiveLevel(points, laterDay, laterMinute) == ActiveLevel(points, day, minute)
    ensures NextSwitchInMinutes(points, laterDay, laterMinute) == Some(NextSwitchInMinutes(points, day, minute).value - k)
  {
  }

  // The weekday and time of the next switch has the level of the only point that stands there.
  lemma LevelAtSwitch(points: seq<SwitchPoint>, day: int, minute: int, at: int, laterDay: int, laterMinute: int) returns (p: SwitchPoint)
    requires IsProgram(points) == true && points != [] && at == MinuteOfWeek(day, minute) + NextSwitchInMinutes(points, day, minute).value
    requires SameMinute(at, MinuteOfWeek(laterDay, laterMinute)) == true
    ensures StandsAlone(points, p, MinuteOfWeek(laterDay, laterMinute)) == true
    ensures ActiveLevel(points, laterDay, laterMinute) == Some(p.level)
  {
    p := AtSwitch(points, MinuteOfWeek(day, minute), at, MinuteOfWeek(laterDay, laterMinute));
  }

  // The answers do not depend on the order in which the points are listed.
  lemma OrderDoesNotMatter(a: seq<SwitchPoint>, b: seq<SwitchPoint>, time: int)
    requires IsProgram(a) && IsProgram(b) && multiset(a) == multiset(b)
    ensures LastPoint(a, time) == LastPoint(b, time) && SoonestAhead(a, time) == SoonestAhead(b, time)
  {
    SameElements(a, b);
    SamePosition(a, LastPoint(a, time), LastPoint(b, time), time);
  }

  // ----- Validation -----

  /** One entry of the reported list; `shaped` says that it is an object with exactly the three known fields. */
  datatype Entry = Entry(shaped: bool, day: string, minute: int, level: string)

  predicate IsLevelKey(s: string) {
    1 <= |s| <= 32 && 'a' <= s[0] <= 'z' && forall i :: 1 <= i < |s| ==> 'a' <= s[i] <= 'z' || '0' <= s[i] <= '9'
  }

  function DayIndex(day: string): (d: Option<nat>)
    ensures d.Some? <==> day in DAYS
    ensures d.Some? ==> d.value < 7 && DAYS[d.value] == day
  {
    if day == DAYS[0] then Some(0) else if day == DAYS[1] then Some(1) else if day == DAYS[2] then Some(2)
    else if day == DAYS[3] then Some(3) else if day == DAYS[4] then Some(4) else if day == DAYS[5] then Some(5)
    else if day == DAYS[6] then Some(6) else None
  }

  function PointOf(e: Entry, raster: int): (p: Option<SwitchPoint>)
    requires raster >= 1
    ensures p.Some? ==> IsPoint(p.value) && p.value.minute % raster == 0 && IsLevelKey(p.value.level)
  {
    var day := DayIndex(e.day);
    if e.shaped && day.Some? && 0 <= e.minute < MINUTES_PER_DAY && e.minute % raster == 0 && IsLevelKey(e.level)
    then Some(SwitchPoint(day.value, e.minute, e.level)) else None
  }

  // What an entry says: one of the weekdays by name, a minute of the day in the raster, and a key of a level.
  lemma PointExactly(e: Entry, raster: int, p: SwitchPoint)
    requires raster >= 1
    ensures PointOf(e, raster) == Some(p) <==>
              && e.shaped && p.day < 7 && e.day == ["Mo", "Tu", "We", "Th", "Fr", "Sa", "Su"][p.day]
              && e.minute == p.minute && 0 <= e.minute < 1440 && e.minute % raster == 0 && e.level == p.level && IsLevelKey(e.level)
  {
    if p.day < 7 && e.day == DAYS[p.day] {
      DaysDiffer(e.day, p.day);
    }
  }

  lemma DaysDiffer(day: string, d: nat)
    requires d < 7 && day == DAYS[d]
    ensures DayIndex(day) == Some(d)
  {
  }

  predicate IsLetter(c: char) { 'a' <= c <= 'z' }

  predicate IsDigit(c: char) { '0' <= c <= '9' }

  // A key begins with a small letter; small letters and digits follow, 32 characters at most.
  lemma LevelKeyExactly(s: string)
    ensures IsLevelKey(s) <==> s != "" && |s| <= 32 && IsLetter(s[0]) && forall c :: c in s ==> IsLetter(c) || IsDigit(c)
  {
    if s != "" && forall c :: c in s ==> IsLetter(c) || IsDigit(c) {
      assert forall i :: 0 <= i < |s| ==> s[i] in s;
    }
  }

  /** The shape around the list (path, schema, level reference) and the advertised limits, if they are integers. */
  datatype Program = Program(shaped: bool, maxPoints: Option<int>, maxPerDay: Option<int>, raster: Option<int>, entries: Option<seq<Entry>>)

  predicate Bounded(value: Option<int>, maximum: int) { value.Some? && 1 <= value.value <= maximum }

  predicate LimitsOk(p: Program) {
    Bounded(p.maxPoints, MAX_SWITCH_POINTS) && Bounded(p.maxPerDay, MAX_SWITCH_POINTS_PER_DAY) && Bounded(p.raster, 60)
    && MINUTES_PER_DAY % p.raster.value == 0
  }

  // The limits: 1 to 168 points, 1 to 48 a day, and a raster of 1 to 60 minutes that divides the day.
  lemma LimitsExactly(p: Program)
    ensures LimitsOk(p) <==>
              && p.maxPoints.Some? && 0 < p.maxPoints.value < 169 && p.maxPerDay.Some? && 0 < p.maxPerDay.value < 49
              && p.raster.Some? && 0 < p.raster.value < 61 && 1440 % p.raster.value == 0
  {
  }

  function OnDay(points: seq<SwitchPoint>, d: nat): seq<SwitchPoint> {
    if points == [] then []
    else OnDay(points[..|points| - 1], d) + if points[|points| - 1].day == d then [points[|points| - 1]] else []
  }

  /** The listed entries are exactly these points. */
  ghost predicate Lists(entries: seq<Entry>, raster: int, points: seq<SwitchPoint>)
    requires raster >= 1
  {
    |points| == |entries| && forall i :: 0 <= i < |entries| ==> PointOf(entries[i], raster) == Some(points[i])
  }

  ghost predicate DistinctTimes(points: seq<SwitchPoint>) {
    forall i, j :: 0 <= i < j < |points| ==> Position(points[i]) != Position(points[j])
  }

  ghost predicate WithinDays(points: seq<SwitchPoint>, maxPerDay: int) {
    forall d: nat :: d < 7 ==> |OnDay(points, d)| <= maxPerDay
  }

  /** What a supported program is. */
  ghost predicate Supports(p: Program, points: seq<SwitchPoint>) {
    && p.shaped && LimitsOk(p) && p.entries.Some? && 1 <= |p.entries.value| <= p.maxPoints.value
    && Lists(p.entries.value, p.raster.value, points) && DistinctTimes(points) && WithinDays(points, p.maxPerDay.value)
  }

  /**
    Validates one program strictly: it is supported exactly when every limit is sound, every entry is valid, no time is
    used twice and no day holds too many points; then the points are exactly the listed ones.
   */
  method Assess(p: Program) returns (supported: bool, points: seq<SwitchPoint>)
    ensures supported ==> Supports(p, points) && IsProgram(points)
    ensures !supported ==> points == [] && forall other :: !Supports(p, other)
  {
    if !p.shaped || !LimitsOk(p) || p.entries.None? || p.entries.value == [] || |p.entries.value| > p.maxPoints.value {
      return false, [];
    }
    var entries: seq<Entry>, seen: set<(nat, nat)>, perDay: seq<nat> := p.entries.value, {}, [0, 0, 0, 0, 0, 0, 0];
    points := [];
    for i := 0 to |entries|
      invariant |perDay| == 7 && Assessed(p, i, points, seen, perDay) == true
    {
      var point := PointOf(entries[i], p.raster.value);
      if point.None? {
        InvalidEntry(p, i);
        return false, [];
      }
      var q := point.value;
      if (q.day, q.minute) in seen {
        RepeatedTime(p, i, points, seen, perDay, q);
        return false, [];
      }
      var counted := perDay[q.day := perDay[q.day] + 1];
      if counted[q.day] > p.maxPerDay.value {
        CrowdedDay(p, i, points, seen, perDay, q);
        return false, [];
      }
      AssessedNext(p, i, points, seen, perDay, q);
      seen, points, perDay := seen + {(q.day, q.minute)}, points + [q], counted;
    }
    AssessedAll(p, points, seen, perDay);
    supported := true;
  }

  /** The first `i` entries are in order; their times and the number of points of each day are noted. */
  ghost predicate Assessed(p: Program, i: nat, points: seq<SwitchPoint>, seen: set<(nat, nat)>, perDay: seq<nat>) {
    && LimitsOk(p) && p.entries.Some? && i <= |p.entries.value|
    && Lists(p.entries.value[..i], p.raster.value, points) && DistinctTimes(points) && WithinDays(points, p.maxPerDay.value)
    && (seen == set q | q in points :: (q.day, q.minute))
    && |perDay| == 7 && forall d: nat :: d < 7 ==> perDay[d] == |OnDay(points, d)|
  }

  lemma AssessedNext(p: Program, i: nat, points: seq<SwitchPoint>, seen: set<(nat, nat)>, perDay: seq<nat>, q: SwitchPoint)
    requires Assessed(p, i, points, seen, perDay) && i < |p.entries.value| && PointOf(p.entries.value[i], p.raster.value) == Some(q)
    requires (q.day, q.minute) !in seen && perDay[q.day] + 1 <= p.maxPerDay.value
    ensures Assessed(p, i + 1, points + [q], seen + {(q.day, q.minute)}, perDay[q.day := perDay[q.day] + 1])
  {
    ListsNext(p.entries.value, p.raster.value, i, points, q);
    NewTime(points, q);
    OnDayNext(points, q);
    SeenNext(points, q);
  }

  lemma ListsNext(entries: seq<Entry>, raster: int, i: nat, points: seq<SwitchPoint>, q: SwitchPoint)
    requires raster >= 1 && i < |entries| && Lists(entries[..i], raster, points) && PointOf(entries[i], raster) == Some(q)
    ensures Lists(entries[..i + 1], raster, points + [q]) && forall x :: x in points ==> IsPoint(x)
  {
  }

  lemma SeenNext(points: seq<SwitchPoint>, q: SwitchPoint)
    ensures (set x | x in points + [q] :: (x.day, x.minute)) == (set x | x in points :: (x.day, x.minute)) + {(q.day, q.minute)}
  {
    assert forall x :: x in points + [q] <==> x in points || x == q;
  }

  lemma AssessedAll(p: Program, points: seq<SwitchPoint>, seen: set<(nat, nat)>, perDay: seq<nat>)
    requires p.shaped && LimitsOk(p) && p.entries.Some? && 1 <= |p.entries.value| <= p.maxPoints.value
    requires Assessed(p, |p.entries.value|, points, seen, perDay)
    ensures Supports(p, points) && IsProgram(points)
  {
    assert p.entries.value[..|p.entries.value|] == p.entries.value;
  }

  lemma OnDayNext(points: seq<SwitchPoint>, q: SwitchPoint)
    ensures forall d: nat :: OnDay(points + [q], d) == OnDay(points, d) + if q.day == d then [q] else []
  {
    assert (points + [q])[..|points|] == points;
  }

  lemma NewTime(points: seq<SwitchPoint>, q: SwitchPoint)
    requires DistinctTimes(points) && (forall x :: x in points ==> IsPoint(x)) && IsPoint(q)
    requires forall x :: x in points ==> x.day != q.day || x.minute != q.minute
    ensures DistinctTimes(points + [q])
  {
    forall i | 0 <= i < |points| ensures Position(points[i]) != Position(q) {
      assert points[i] in points;
    }
  }

  // The listed points are determined by the entries.
  lemma SamePrefix(entries: seq<Entry>, raster: int, i: nat, points: seq<SwitchPoint>, other: seq<SwitchPoint>)
    requires raster >= 1 && i <= |entries| && Lists(entries[..i], raster, points) && Lists(entries, raster, other)
    ensures points == other[..i]
  {
  }

  lemma InvalidEntry(p: Program, i: nat)
    requires LimitsOk(p) && p.entries.Some? && i < |p.entries.value| && PointOf(p.entries.value[i], p.raster.value).None?
    ensures forall other :: !Supports(p, other)
  {
  }

  lemma RepeatedTime(p: Program, i: nat, points: seq<SwitchPoint>, seen: set<(nat, nat)>, perDay: seq<nat>, q: SwitchPoint)
    requires Assessed(p, i, points, seen, perDay) && i < |p.entries.value| && PointOf(p.entries.value[i], p.raster.value) == Some(q)
    requires (q.day, q.minute) in seen
    ensures forall other :: !Supports(p, other)
  {
    forall other ensures !Supports(p, other) {
      if Supports(p, other) {
        SamePrefix(p.entries.value, p.raster.value, i, points, other);
      }
    }
  }

  lemma CrowdedDay(p: Program, i: nat, points: seq<SwitchPoint>, seen: set<(nat, nat)>, perDay: seq<nat>, q: SwitchPoint)
    requires Assessed(p, i, points, seen, perDay) && i < |p.entries.value| && PointOf(p.entries.value[i], p.raster.value) == Some(q)
    requires perDay[q.day] + 1 > p.maxPerDay.value
    ensures forall other :: !Supports(p, other)
  {
    forall other ensures !Supports(p, other) {
      if Supports(p, other) {
        SamePrefix(p.entries.value, p.raster.value, i, points, other);
        AsManyOnDay(points, q, other, i);
      }
    }
  }

  lemma AsManyOnDay(points: seq<SwitchPoint>, q: SwitchPoint, other: seq<SwitchPoint>, i: nat)
    requires i < |other| && points == other[..i] && other[i] == q
    ensures |OnDay(points, q.day)| + 1 <= |OnDay(other, q.day)|
  {
    OnDayNext(points, q);
    assert other[..i + 1] == points + [q];
    OnDayGrows(other, i + 1, q.day);
  }

  lemma {:induction false} OnDayGrows(points: seq<SwitchPoint>, n: nat, d: nat)
    requires n <= |points|
    ensures |OnDay(points[..n], d)| <= |OnDay(points, d)|
  {
    if n == |points| {
      assert points[..n] == points;
    } else {
      OnDayGrows(points[..|points| - 1], n, d);
      assert points[..|points| - 1][..n] == points[..n];
    }
  }

  // ----- The schedule for display -----

  predicate NotLater(a: SwitchPoint, b: SwitchPoint) { a.day < b.day || (a.day == b.day && a.minute <= b.minute) }

  function ByTime(): (SwitchPoint, SwitchPoint) -> bool { (a, b) => NotLater(a, b) }

  /** The points of each weekday that has any, in order. */
  method Schedule(points: seq<SwitchPoint>) returns (days: map<nat, seq<SwitchPoint>>)
    ensures Groups(days, Sort(points, ByTime()))
  {
    days := Grouped(Sort(points, ByTime()));
  }

  method Grouped(points: seq<SwitchPoint>) returns (days: map<nat, seq<SwitchPoint>>)
    ensures Groups(days, points)
  {
    days := map[];
    for i := 0 to |points|
      invariant Groups(days, points[..i])
    {
      assert points[..i + 1] == points[..i] + [points[i]];
      GroupsNext(days, points[..i], points[i]);
      days := days[points[i].day := Shown(days, points[i].day) + [points[i]]];
    }
    assert points[..|points|] == points;
  }

  /** Each weekday that has a point maps to its points, in the order given. */
  ghost predicate Groups(days: map<nat, seq<SwitchPoint>>, points: seq<SwitchPoint>) {
    forall d: nat :: Shown(days, d) == OnDay(points, d) && (d in days ==> days[d] != [])
  }

  lemma GroupsNext(days: map<nat, seq<SwitchPoint>>, points: seq<SwitchPoint>, p: SwitchPoint)
    requires Groups(days, points)
    ensures Groups(days[p.day := Shown(days, p.day) + [p]], points + [p])
  {
    OnDayNext(points, p);
  }

  function Shown(days: map<nat, seq<SwitchPoint>>, d: nat): seq<SwitchPoint> { if d in days then days[d] else [] }

  lemma {:induction false} OnDayFilters(points: seq<SwitchPoint>, d: nat, p: SwitchPoint)
    ensures multiset(OnDay(points, d))[p] == if p.day == d then multiset(points)[p] else 0
  {
    if points != [] {
      OnDayFilters(points[..|points| - 1], d, p);
      assert points == points[..|points| - 1] + [points[|points| - 1]];
    }
  }

  // Every point is shown once, under its day.
  lemma ScheduleShowsAll(points: seq<SwitchPoint>, d: nat, p: SwitchPoint)
    ensures multiset(OnDay(Sort(points, ByTime()), d))[p] == if p.day == d then multiset(points)[p] else 0
    ensures SortedBy(Sort(points, ByTime()), ByTime())
  {
    SortCorrect(points, ByTime());
    OnDayFilters(Sort(points, ByTime()), d, p);
  }

  // The points of a day are shown in the order of their times.
  lemma {:induction false} DayIsOrdered(points: seq<SwitchPoint>, d: nat)
    requires SortedBy(points, ByTime())
    ensures forall i, j :: 0 <= i < j < |OnDay(points, d)| ==> OnDay(points, d)[i].minute <= OnDay(points, d)[j].minute
  {
    if points != [] {
      var front := points[..|points| - 1];
      DayIsOrdered(front, d);
      OnDayWithin(front, d);
      var last := points[|points| - 1];
      forall p | p in OnDay(front, d) ensures p.day == d && NotLater(p, last) {
        var i :| 0 <= i < |front| && front[i] == p;
        assert ByTime()(points[i], last);
      }
    }
  }

  lemma {:induction false} OnDayWithin(points: seq<SwitchPoint>, d: nat)
    ensures forall p :: p in OnDay(points, d) ==> p in points && p.day == d
  {
    if points != [] {
      OnDayWithin(points[..|points| - 1], d);
    }
  }
}
