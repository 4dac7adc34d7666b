/**
  Creating, changing and deleting a holiday period (holiday_writes.py). A POST is not repeated, an update merges
  three versions, and nothing counts as done before a later list shows it. The gateway may answer every request
  with anything, or not at all.
 */
module HolidayWrites {
  import opened Common
  import opened HolidayTimes

  /** The known fields of a holiday, as they are written. */
  datatype Values = Values(start: string, end: string, heating: Option<string>, dhw: Option<string>,
                           ventilation: Option<string>, circuits: seq<string>, name: Option<string>,
                           thermal: Option<string>, temperature: real, source: string)

  /** One parsed period. `modern` says that it comes from the writable holiday list. */
  datatype Period = Period(start: Point, end: Point, id: Option<nat>, modern: bool, write: Option<Values>)

  /** A comparison; it raises when a written time has no meaning. */
  datatype Verdict = Yes | No | Raises

  function Closeness(a: real): real { if a < 0.0 then -a else a }

  /** Equal but for rounding: relative tolerance 1e-9. */
  predicate IsClose(a: real, b: real) {
    var larger := if Closeness(a) >= Closeness(b) then Closeness(a) else Closeness(b);
    Closeness(a - b) * 1000000000.0 <= larger
  }

  /** The same start and circuits make the same holiday; the end is not compared. */
  function SameCreation(p: Period, v: Values): Verdict {
    if p.write.None? then No
    else
      var start := Instant(v.start, false);
      if start.None? then Raises
      else if p.start == start.value && Elements(p.write.value.circuits) == Elements(v.circuits) then Yes else No
  }

  predicate SameSettings(a: Values, v: Values) {
    && a.heating == v.heating && a.dhw == v.dhw && a.ventilation == v.ventilation
    && Elements(a.circuits) == Elements(v.circuits) && a.name == v.name && a.thermal == v.thermal
    && IsClose(a.temperature, v.temperature)
  }

  function Matches(p: Period, v: Values): Verdict {
    if p.write.None? then No
    else
      var start, end := Instant(v.start, false), Instant(v.end, true);
      if start.None? then Raises else if p.start != start.value then No
      else if end.None? then Raises else if p.end != end.value then No
      else if SameSettings(p.write.value, v) then Yes else No
  }

  /** A period with writable values at the requested start, for the same set of circuits; the end may differ. */
  ghost predicate Corresponds(p: Period, v: Values) {
    p.write.Some? && Instant(v.start, false) == Some(p.start) && Elements(p.write.value.circuits) == Elements(v.circuits)
  }

  lemma SameCreationExactly(p: Period, v: Values)
    ensures SameCreation(p, v) == Yes <==> Corresponds(p, v)
    ensures SameCreation(p, v) == Raises <==> p.write.Some? && Instant(v.start, false).None?
  {
  }

  ghost predicate Within(d: real, m: real) { -m <= d * 1000000000.0 <= m }

  // Close numbers differ by at most a billionth of one of them.
  lemma IsCloseExactly(a: real, b: real)
    ensures IsClose(a, b) <==> Within(a - b, a) || Within(a - b, -a) || Within(a - b, b) || Within(a - b, -b)
  {
  }

  /** A period shows exactly these values: the two instants, every setting, the set of circuits, and a close temperature. */
  ghost predicate Shows(p: Period, v: Values) {
    && p.write.Some? && Instant(v.start, false) == Some(p.start) && Instant(v.end, true) == Some(p.end)
    && (var w := p.write.value;
        && w.heating == v.heating && w.dhw == v.dhw && w.ventilation == v.ventilation && w.name == v.name && w.thermal == v.thermal
        && Elements(w.circuits) == Elements(v.circuits) && IsClose(w.temperature, v.temperature))
  }

  lemma MatchesExactly(p: Period, v: Values)
    ensures Matches(p, v) == Yes <==> Shows(p, v)
    ensures Matches(p, v) == Raises <==>
              p.write.Some? && (Instant(v.start, false).None? || (Instant(v.start, false) == Some(p.start) && Instant(v.end, true).None?))
  {
  }

  /** `any` over a list: the first period that decides. */
  function AnyOf(periods: seq<Period>, f: Period -> Verdict): (r: Verdict)
    ensures r == Yes ==> exists i :: 0 <= i < |periods| && f(periods[i]) == Yes
    ensures r == No ==> forall i :: 0 <= i < |periods| ==> f(periods[i]) == No
  {
    if periods == [] then No
    else if f(periods[0]) == No then
      var rest := AnyOf(periods[1..], f);
      assert rest == Yes ==> exists i :: 0 <= i < |periods[1..]| && f(periods[1..][i]) == Yes;
      rest
    else f(periods[0])
  }

  // ----- The payload of an update -----

  /** One field: the user's change, or the live value; a different change on both sides is a conflict. */
  function MergeField<T(==)>(before: T, after: T, live: T): Option<T> {
    if before == after then Some(live)
    else if live != before && live != after then None
    else Some(after)
  }

  function Merge(before: Values, after: Values, live: Values): Option<Values> {
    var start, end := MergeField(before.start, after.start, live.start), MergeField(before.end, after.end, live.end);
    var heating, dhw := MergeField(before.heating, after.heating, live.heating), MergeField(before.dhw, after.dhw, live.dhw);
    var ventilation := MergeField(before.ventilation, after.ventilation, live.ventilation);
    var circuits, name := MergeField(before.circuits, after.circuits, live.circuits), MergeField(before.name, after.name, live.name);
    var thermal := MergeField(before.thermal, after.thermal, live.thermal);
    var temperature := MergeField(before.temperature, after.temperature, live.temperature);
    var source := MergeField(before.source, after.source, live.source);
    if start.None? || end.None? || heating.None? || dhw.None? || ventilation.None? || circuits.None? || name.None?
       || thermal.None? || temperature.None? || source.None? then None
    else Some(Values(start.value, end.value, heating.value, dhw.value, ventilation.value, circuits.value, name.value,
                     thermal.value, temperature.value, source.value))
  }

  ghost predicate Conflict<T>(before: T, after: T, live: T) { before != after && live != before && live != after }

  ghost predicate TakenFrom<T>(before: T, after: T, live: T, r: T) { r == if before == after then live else after }

  /** Some field was changed differently in the draft and in the live state. */
  ghost predicate AnyConflict(before: Values, after: Values, live: Values) {
    || Conflict(before.start, after.start, live.start) || Conflict(before.end, after.end, live.end)
    || Conflict(before.heating, after.heating, live.heating) || Conflict(before.dhw, after.dhw, live.dhw)
    || Conflict(before.ventilation, after.ventilation, live.ventilation) || Conflict(before.circuits, after.circuits, live.circuits)
    || Conflict(before.name, after.name, live.name) || Conflict(before.thermal, after.thermal, live.thermal)
    || Conflict(before.temperature, after.temperature, live.temperature) || Conflict(before.source, after.source, live.source)
  }

  // The merge takes exactly the user's changes from the draft and all else from the live state; it is refused
  // exactly when some field changed differently on both sides.
  lemma MergeIsThreeWay(before: Values, after: Values, live: Values)
    ensures Merge(before, after, live).None? <==> AnyConflict(before, after, live)
    ensures Merge(before, after, live).Some? ==>
              var r := Merge(before, after, live).value;
              && TakenFrom(before.start, after.start, live.start, r.start) && TakenFrom(before.end, after.end, live.end, r.end)
              && TakenFrom(before.heating, after.heating, live.heating, r.heating) && TakenFrom(before.dhw, after.dhw, live.dhw, r.dhw)
              && TakenFrom(before.ventilation, after.ventilation, live.ventilation, r.ventilation)
              && TakenFrom(before.circuits, after.circuits, live.circuits, r.circuits)
              && TakenFrom(before.name, after.name, live.name, r.name)
              && TakenFrom(before.thermal, after.thermal, live.thermal, r.thermal)
              && TakenFrom(before.temperature, after.temperature, live.temperature, r.temperature)
              && TakenFrom(before.source, after.source, live.source, r.source)
  {
  }

  // Changes made on one side only merge to that side: no edit is lost, and none is invented.
  lemma MergeKeepsOneSide(before: Values, other: Values)
    ensures Merge(before, other, before) == Some(other) && Merge(before, before, other) == Some(other)
    ensures Merge(before, other, other) == Some(other)
  {
  }

  function CanonicalValues(v: Values): Option<Values> {
    var start, end := Canonical(v.start), Canonical(v.end);
    if start.None? || end.None? then None else Some(v.(start := start.value, end := end.value))
  }

  // Rewriting the legacy midnight form changes no instant and no other field.
  lemma CanonicalValuesMeanTheSame(v: Values)
    requires CanonicalValues(v).Some?
    ensures var c := CanonicalValues(v).value;
            && Instant(c.start, false) == Instant(v.start, false) && Instant(c.end, true) == Instant(v.end, true)
            && c == v.(start := c.start, end := c.end)
            && !Contains(c.start, "T24:") && !Contains(c.end, "T24:")
  {
    CanonicalKeepsInstant(v.start, false);
    CanonicalKeepsInstant(v.end, true);
  }

  // ----- Creation -----

  datatype Gateway = Gateway(id: string)

  datatype Pending = Pending(values: Values, previousIds: set<nat>)

  function IdsOf(periods: seq<Period>): set<nat> { set p | p in periods && p.id.Some? :: p.id.value }

  predicate NewId(p: Period, previousIds: set<nat>) { p.id.None? || p.id.value !in previousIds }

  /** A new numeric identifier whose period matches everything requested. */
  function IsConfirmation(p: Period, request: Pending): Verdict {
    if p.id.Some? && p.id.value !in request.previousIds then Matches(p, request.values) else No
  }

  function IsCandidate(p: Period, request: Pending): Verdict {
    if NewId(p, request.previousIds) then SameCreation(p, request.values) else No
  }

  datatype Choice = Picked(period: Option<Period>) | ChoiceRaises

  function CandidatesIn(periods: seq<Period>, request: Pending): Option<seq<Period>> {
    if periods == [] then Some([])
    else
      var rest := CandidatesIn(periods[1..], request);
      match IsCandidate(periods[0], request)
      case Raises => None
      case No => rest
      case Yes => if rest.None? then None else Some([periods[0]] + rest.value)
  }

  /** The unique new period with the requested start and assignments, which the gateway may have adjusted. */
  function UniqueCandidate(periods: seq<Period>, request: Pending): Choice {
    var all := CandidatesIn(periods, request);
    if all.None? then ChoiceRaises else Picked(if |all.value| == 1 then Some(all.value[0]) else None)
  }

  /** A new period that corresponds to the request. */
  ghost predicate IsTwin(p: Period, request: Pending) {
    (forall n :: p.id == Some(n) ==> n !in request.previousIds) && Corresponds(p, request.values)
  }

  ghost predicate OnlyTwin(periods: seq<Period>, request: Pending, i: int) {
    0 <= i < |periods| && IsTwin(periods[i], request) && forall j :: 0 <= j < |periods| && j != i ==> !IsTwin(periods[j], request)
  }

  lemma TwinExactly(p: Period, request: Pending)
    ensures IsCandidate(p, request) == Yes <==> IsTwin(p, request)
    ensures Instant(request.values.start, false).Some? ==> IsCandidate(p, request) != Raises
  {
    SameCreationExactly(p, request.values);
  }

  // The candidates are the twins, as often as they are listed.
  lemma {:induction false} CandidatesAre(periods: seq<Period>, request: Pending)
    requires Instant(request.values.start, false).Some?
    ensures CandidatesIn(periods, request).Some?
    ensures |CandidatesIn(periods, request).value| == 0 <==> forall j :: 0 <= j < |periods| ==> !IsTwin(periods[j], request)
    ensures forall i :: OnlyTwin(periods, request, i) ==> CandidatesIn(periods, request).value == [periods[i]]
    ensures |CandidatesIn(periods, request).value| == 1 ==> exists i :: OnlyTwin(periods, request, i)
  {
    if periods != [] {
      var rest := periods[1..];
      CandidatesAre(rest, request);
      TwinExactly(periods[0], request);
      forall i | OnlyTwin(periods, request, i) ensures CandidatesIn(periods, request).value == [periods[i]] {
        if i > 0 {
          assert periods[i] == rest[i - 1];
          assert OnlyTwin(rest, request, i - 1);
        } else {
          assert forall j :: 0 <= j < |rest| ==> rest[j] == periods[j + 1];
        }
      }
      if |CandidatesIn(periods, request).value| == 1 {
        if IsTwin(periods[0], request) {
          assert OnlyTwin(periods, request, 0);
        } else {
          var i :| OnlyTwin(rest, request, i);
          assert OnlyTwin(periods, request, i + 1);
        }
      }
    }
  }

  // The adjusted candidate is reported exactly if one new period alone corresponds to the request.
  lemma CandidateIsUnique(periods: seq<Period>, request: Pending)
    requires Instant(request.values.start, false).Some?
    ensures UniqueCandidate(periods, request).Picked?
    ensures forall i :: OnlyTwin(periods, request, i) ==> UniqueCandidate(periods, request).period == Some(periods[i])
    ensures UniqueCandidate(periods, request).period.Some? ==> exists i :: OnlyTwin(periods, request, i)
  {
    CandidatesAre(periods, request);
  }

  function ConfirmedBy(periods: seq<Period>, request: Pending): Verdict { AnyOf(periods, p => IsConfirmation(p, request)) }

  // A creation is confirmed exactly by a new numeric identifier that shows the requested values, unless the comparison
  // with an earlier period has no meaning.
  lemma ConfirmedExactly(periods: seq<Period>, request: Pending)
    requires Instant(request.values.start, false).Some? && Instant(request.values.end, true).Some?
    ensures ConfirmedBy(periods, request) != Raises
    ensures ConfirmedBy(periods, request) == Yes <==> exists p :: p in periods && IsNewAndShows(p, request)
  {
    forall p ensures IsConfirmation(p, request) == if IsNewAndShows(p, request) then Yes else No {
      MatchesExactly(p, request.values);
    }
    NeverRaises(periods, p => IsConfirmation(p, request));
  }

  ghost predicate IsNewAndShows(p: Period, request: Pending) {
    p.id.Some? && p.id.value !in request.previousIds && Shows(p, request.values)
  }

  lemma {:induction false} NeverRaises(periods: seq<Period>, f: Period -> Verdict)
    requires forall p :: p in periods ==> f(p) != Raises
    ensures AnyOf(periods, f) == if exists p :: p in periods && f(p) == Yes then Yes else No
  {
    if periods != [] {
      NeverRaises(periods[1..], f);
      assert forall p :: p in periods <==> p == periods[0] || p in periods[1..];
    }
  }

  // A confirmed creation is a new numeric identifier at exactly the requested times with the requested settings.
  lemma ConfirmationMeans(periods: seq<Period>, request: Pending) returns (p: Period)
    requires ConfirmedBy(periods, request) == Yes
    ensures p in periods && p.id.Some? && p.id.value !in request.previousIds && p.write.Some?
    ensures Instant(request.values.start, false) == Some(p.start) && Instant(request.values.end, true) == Some(p.end)
    ensures SameSettings(p.write.value, request.values)
  {
    var i :| 0 <= i < |periods| && IsConfirmation(periods[i], request) == Yes;
    p := periods[i];
  }

  function CreatedBefore(periods: seq<Period>, v: Values): Verdict { AnyOf(periods, p => SameCreation(p, v)) }

  // A period exists already exactly if it corresponds; a start without a meaning raises where anything is to compare.
  lemma CreatedExactly(periods: seq<Period>, v: Values)
    ensures CreatedBefore(periods, v) == Yes <==> exists p :: p in periods && Corresponds(p, v)
    ensures CreatedBefore(periods, v) == Raises <==> Instant(v.start, false).None? && exists p :: p in periods && p.write.Some?
  {
    forall p ensures SameCreation(p, v) == if Corresponds(p, v) then Yes
                                           else if p.write.Some? && Instant(v.start, false).None? then Raises else No {
      SameCreationExactly(p, v);
    }
    if Instant(v.start, false).Some? {
      NeverRaises(periods, p => SameCreation(p, v));
    } else {
      RaisesAtOnce(periods, v);
    }
  }

  lemma {:induction false} RaisesAtOnce(periods: seq<Period>, v: Values)
    requires Instant(v.start, false).None?
    ensures CreatedBefore(periods, v) == if exists p :: p in periods && p.write.Some? then Raises else No
  {
    if periods != [] {
      RaisesAtOnce(periods[1..], v);
      assert forall p :: p in periods <==> p == periods[0] || p in periods[1..];
    }
  }

  function UpdatedIn(periods: seq<Period>, id: nat, v: Values): Verdict { AnyOf(periods, p => IsUpdated(p, id, v)) }

  /** A read-back that settles a request. */
  ghost predicate Settles(periods: seq<Period>, request: Pending) {
    ConfirmedBy(periods, request) == Yes
    || (UniqueCandidate(periods, request).Picked? && UniqueCandidate(periods, request).period.Some?)
  }

  datatype ListReply = Periods(periods: seq<Period>) | Unparsable | Temporary | ListFailed

  datatype WriteReply = Accepted | TimedOut | Unavailable | Rejects | OtherFailure

  /** What happened, in order: every request with what came back, and the moments at which a creation was settled. */
  datatype Event =
    | Listed(gateway: Gateway, reply: ListReply)
    | Posted(gateway: Gateway, request: Pending, answer: WriteReply)
    | Updated(gateway: Gateway, id: nat, payload: Values, answer: WriteReply)
    | Deleted(gateway: Gateway, id: nat, answer: WriteReply)
    | Settled(gateway: Gateway, periods: seq<Period>)

  predicate IsList(e: Event, g: Gateway) { e.Listed? && e.gateway == g }

  ghost predicate OnlyLists(events: seq<Event>, g: Gateway) { forall i :: 0 <= i < |events| ==> IsList(events[i], g) }

  /** The request of a gateway whose fate is still open. A definite rejection leaves nothing open. */
  function Open(log: seq<Event>, g: Gateway): Option<Pending> {
    if log == [] then None
    else
      var last := log[|log| - 1];
      if last.gateway != g || !(last.Posted? || last.Settled?) then Open(log[..|log| - 1], g)
      else if last.Posted? && !last.answer.Rejects? then Some(last.request) else None
  }

  /** The list was read, and nothing but lists since. */
  ghost predicate WasRead(log: seq<Event>, g: Gateway, periods: seq<Period>) { exists m :: ReadAt(log, m, g, periods) }

  ghost predicate ReadAt(log: seq<Event>, m: int, g: Gateway, periods: seq<Period>) {
    0 <= m < |log| && log[m] == Listed(g, Periods(periods)) && forall n :: m <= n < |log| ==> log[n].Listed?
  }

  /** What must have happened before an event. */
  ghost predicate Reason(before: seq<Event>, e: Event) {
    match e
    case Posted(g, request, _) =>
      && Open(before, g).None? && before != [] && IsList(before[|before| - 1], g) && before[|before| - 1].reply.Periods?
      && CreatedBefore(before[|before| - 1].reply.periods, request.values) == No
      && request.previousIds == IdsOf(before[|before| - 1].reply.periods)
    case Settled(g, periods) =>
      Open(before, g).Some? && Settles(periods, Open(before, g).value) && WasRead(before, g, periods)
    case _ => true
  }

  ghost predicate JustifiedAt(log: seq<Event>, k: nat)
    requires k < |log|
  {
    Reason(log[..k], log[k])
  }

  ghost predicate Justified(log: seq<Event>) { forall k {:trigger JustifiedAt(log, k)} :: 0 <= k < |log| ==> JustifiedAt(log, k) }

  lemma JustifiedNext(log: seq<Event>, e: Event)
    requires Justified(log) && Reason(log, e)
    ensures Justified(log + [e])
  {
    var longer := log + [e];
    forall k | 0 <= k < |longer| ensures JustifiedAt(longer, k) {
      if k < |log| {
        assert longer[..k] == log[..k];
        assert JustifiedAt(log, k);
      } else {
        assert longer[..k] == log;
      }
    }
  }

  // A request stays open until an event closes it: if it is not open any more, it was settled before.
  lemma {:induction false} OpenedBetween(log: seq<Event>, g: Gateway, i: nat, j: nat, request: Pending) returns (k: nat)
    requires Justified(log) && i <= j <= |log|
    requires Open(log[..i], g) == Some(request) && Open(log[..j], g) != Some(request)
    ensures i <= k < j && log[k].gateway == g && log[k].Settled? && Open(log[..k], g) == Some(request)
    decreases j
  {
    assert log[..j][..j - 1] == log[..j - 1];
    assert JustifiedAt(log, j - 1);
    if Open(log[..j - 1], g) == Some(request) {
      k := j - 1;
    } else {
      k := OpenedBetween(log, g, i, j - 1, request);
    }
  }

  // No creation is repeated: the first of two POSTs was rejected outright, or a list read after it settled it before
  // the second.
  lemma CreationIsNotRepeated(log: seq<Event>, i: nat, j: nat) returns (m: int, k: nat)
    requires Justified(log) && i < j < |log|
    requires log[i].Posted? && log[j].Posted? && log[i].gateway == log[j].gateway
    ensures !log[i].answer.Rejects? ==>
              && i < m < k < j && log[k].Settled? && log[k].gateway == log[i].gateway
              && log[m] == Listed(log[i].gateway, Periods(log[k].periods)) && Settles(log[k].periods, log[i].request)
  {
    var g := log[i].gateway;
    if log[i].answer.Rejects? {
      return 0, 0;
    }
    assert log[..i + 1][..i] == log[..i];
    PostedBecause(log, j);
    k := OpenedBetween(log, g, i + 1, j, log[i].request);
    SettledBecause(log, k);
    m :| ReadAt(log[..k], m, g, log[k].periods);
    assert log[..k][m] == log[m] && log[..k][i] == log[i];
  }

  lemma PostedBecause(log: seq<Event>, k: nat)
    requires Justified(log) && k < |log| && log[k].Posted?
    ensures Open(log[..k], log[k].gateway).None? && Reason(log[..k], log[k])
  {
    assert JustifiedAt(log, k);
  }

  lemma SettledBecause(log: seq<Event>, k: nat)
    requires Justified(log) && k < |log| && log[k].Settled?
    ensures Open(log[..k], log[k].gateway).Some? && Settles(log[k].periods, Open(log[..k], log[k].gateway).value)
    ensures WasRead(log[..k], log[k].gateway, log[k].periods)
  {
    assert JustifiedAt(log, k);
  }

  // Every POST follows a valid list that holds no period of the same start and assignments.
  lemma PostFollowsCleanList(log: seq<Event>, j: nat)
    requires Justified(log) && j < |log| && log[j].Posted?
    ensures j > 0 && IsList(log[j - 1], log[j].gateway) && log[j - 1].reply.Periods?
    ensures forall p :: p in log[j - 1].reply.periods ==> !Corresponds(p, log[j].request.values)
    ensures forall n :: n in log[j].request.previousIds <==> exists p :: p in log[j - 1].reply.periods && p.id == Some(n)
  {
    assert JustifiedAt(log, j);
    CreatedExactly(log[j - 1].reply.periods, log[j].request.values);
  }

  // A request is open exactly if it was the last thing sent or settled at its gateway, and was not rejected.
  lemma {:induction false} OpenExactly(log: seq<Event>, g: Gateway, request: Pending)
    ensures Open(log, g) == Some(request) <==> exists k :: IsOpenAt(log, g, request, k)
  {
    if log != [] {
      var front, last := log[..|log| - 1], log[|log| - 1];
      OpenExactly(front, g, request);
      if k :| IsOpenAt(front, g, request, k) {
        assert (last.gateway == g && (last.Posted? || last.Settled?)) || IsOpenAt(log, g, request, k);
      }
      if k :| IsOpenAt(log, g, request, k) {
        assert k == |front| || IsOpenAt(front, g, request, k);
      }
      if last.gateway == g && last.Posted? && !last.answer.Rejects? && last.request == request {
        assert IsOpenAt(log, g, request, |front|);
      }
    }
  }

  ghost predicate IsOpenAt(log: seq<Event>, g: Gateway, request: Pending, k: int) {
    && 0 <= k < |log| && log[k].Posted? && log[k].gateway == g && log[k].request == request && !log[k].answer.Rejects?
    && forall j :: k < j < |log| && log[j].gateway == g ==> !log[j].Posted? && !log[j].Settled?
  }

  // ----- The service -----

  datatype Readback =
    | Done(periods: seq<Period>)
    | Unconfirmed(latest: Option<seq<Period>>, actual: Option<Period>)
    | Aborted

  datatype Outcome =
    | Returned(periods: seq<Period>)
    | AlreadyExists(previousRequest: bool)
    | NotConfirmed(actual: Option<Period>)
    | Changed
    | Failed

  /** What a read-back waits for: a created, a changed or a removed period. */
  datatype Goal = Creation(request: Pending) | Change(id: nat, payload: Values) | Removal(id: nat)

  function Confirmed(goal: Goal, periods: seq<Period>): Verdict {
    match goal
    case Creation(request) => ConfirmedBy(periods, request)
    case Change(id, payload) => UpdatedIn(periods, id, payload)
    case Removal(id) => Absent(periods, id)
  }

  /** The period that a read-back reports if it is not confirmed. */
  function Candidate(goal: Goal, periods: seq<Period>): Choice {
    match goal
    case Creation(request) => UniqueCandidate(periods, request)
    case Change(id, _) => Picked(WithId(periods, id))
    case Removal(_) => Picked(None)
  }

  /** What a valid list says: the candidate is looked up first, and either comparison may raise. */
  function Looks(goal: Goal, periods: seq<Period>): Verdict {
    if Candidate(goal, periods).ChoiceRaises? then Raises else Confirmed(goal, periods)
  }

  /** The open request is the caller's own, and the list confirms it. */
  ghost predicate Confirms(periods: seq<Period>, request: Option<Pending>, values: Option<Values>) {
    request.Some? && values == Some(request.value.values) && ConfirmedBy(periods, request.value) == Yes
  }

  /** None of these lists ends the read-back. */
  ghost predicate Undecided(lists: seq<Event>, goal: Goal) {
    forall i :: 0 <= i < |lists| ==> lists[i].Listed? && !lists[i].reply.ListFailed?
                                     && (lists[i].reply.Periods? ==> Looks(goal, lists[i].reply.periods) == No)
  }

  /** These lists were read and decided nothing; the latest valid one gives the candidate. */
  ghost predicate ReadsOn(lists: seq<Event>, g: Gateway, goal: Goal, latest: Option<seq<Period>>, actual: Option<Period>) {
    && OnlyLists(lists, g) && Undecided(lists, goal)
    && if latest.None? then actual.None? && forall i :: 0 <= i < |lists| ==> !lists[i].reply.Periods?
       else (exists m :: LatestValid(lists, m, g, latest.value)) && Candidate(goal, latest.value) == Picked(actual)
  }

  /** A read-back ends with the first list that decides, or after all attempts. */
  ghost predicate ReadsBack(lists: seq<Event>, g: Gateway, goal: Goal, attempts: nat, r: Readback) {
    var n := |lists| - 1;
    && OnlyLists(lists, g)
    && match r
       case Done(periods) =>
         0 <= n < attempts && Undecided(lists[..n], goal) && lists[n] == Listed(g, Periods(periods)) && Looks(goal, periods) == Yes
       case Unconfirmed(latest, actual) => |lists| == attempts && ReadsOn(lists, g, goal, latest, actual)
       case Aborted =>
         && 0 <= n < attempts && Undecided(lists[..n], goal)
         && (lists[n].reply.ListFailed? || (lists[n].reply.Periods? && Looks(goal, lists[n].reply.periods) == Raises))
  }

  ghost predicate LatestValid(lists: seq<Event>, m: int, g: Gateway, periods: seq<Period>) {
    && OnlyLists(lists, g) && 0 <= m < |lists| && lists[m] == Listed(g, Periods(periods))
    && forall i :: m < i < |lists| ==> !lists[i].reply.Periods?
  }

  /** How an update of one period goes: at most one PUT, of the user's changes merged into a list read just before. */
  ghost predicate UpdateRun(events: seq<Event>, g: Gateway, id: nat, baseline: Option<Values>, draft: Values) {
    if |events| < 2 then OnlyLists(events, g)
    else
      && IsList(events[0], g) && events[0].reply.Periods? && OnlyLists(events[2..], g)
      && events[1].Updated? && events[1].gateway == g && events[1].id == id
      && MergedPayload(baseline, draft, WriteOf(WithId(events[0].reply.periods, id))) == Some(events[1].payload)
  }

  /** How it ends: only after a PUT, and normally only with the list read last, which shows the payload under this identifier. */
  ghost predicate UpdateEnds(events: seq<Event>, g: Gateway, id: nat, outcome: Outcome) {
    match outcome
    case Returned(periods) =>
      && |events| >= 3 && events[1].Updated? && events[|events| - 1] == Listed(g, Periods(periods))
      && exists p :: p in periods && p.modern && p.id == Some(id) && Matches(p, events[1].payload) == Yes
    case NotConfirmed(_) => |events| >= 2
    case Failed => true
    case _ => false
  }

  ghost predicate PutRun(events: seq<Event>, g: Gateway, id: nat, payload: Values, reply: ListReply, outcome: Outcome) {
    && |events| >= 2 && events[0] == Listed(g, reply) && events[1].Updated? && events[1] == Updated(g, id, payload, events[1].answer)
    && OnlyLists(events[2..], g) && UpdateEnds(events, g, id, outcome)
  }

  lemma PutIsUpdate(events: seq<Event>, g: Gateway, id: nat, payload: Values, reply: ListReply, outcome: Outcome,
                    baseline: Option<Values>, draft: Values)
    requires PutRun(events, g, id, payload, reply, outcome)
    requires reply.Periods? && MergedPayload(baseline, draft, WriteOf(WithId(reply.periods, id))) == Some(payload)
    ensures UpdateRun(events, g, id, baseline, draft) && UpdateEnds(events, g, id, outcome)
  {
  }

  /** What an update sends: the draft's changes against the baseline, merged into the live state, in canonical times. */
  function MergedPayload(baseline: Option<Values>, draft: Values, live: Option<Values>): Option<Values> {
    if baseline.None? || live.None? then None
    else
      var merged := Merge(baseline.value, draft, live.value);
      if merged.None? then None else CanonicalValues(merged.value)
  }

  /** A time is sent as the draft has it if the user changed it, else as it is live, in the form without 24:00. */
  ghost predicate TimeTaken(before: string, after: string, live: string, sent: string) {
    Canonical(if before == after then live else after) == Some(sent)
  }

  // The payload of an update, field by field; there is none when a state is unknown, on a conflict, or for a malformed time.
  lemma PayloadExactly(baseline: Option<Values>, draft: Values, live: Option<Values>, p: Values)
    ensures MergedPayload(baseline, draft, live) == Some(p) <==>
              && baseline.Some? && live.Some? && !AnyConflict(baseline.value, draft, live.value)
              && (var b, l := baseline.value, live.value;
                  && TimeTaken(b.start, draft.start, l.start, p.start) && TimeTaken(b.end, draft.end, l.end, p.end)
                  && TakenFrom(b.heating, draft.heating, l.heating, p.heating) && TakenFrom(b.dhw, draft.dhw, l.dhw, p.dhw)
                  && TakenFrom(b.ventilation, draft.ventilation, l.ventilation, p.ventilation)
                  && TakenFrom(b.circuits, draft.circuits, l.circuits, p.circuits) && TakenFrom(b.name, draft.name, l.name, p.name)
                  && TakenFrom(b.thermal, draft.thermal, l.thermal, p.thermal)
                  && TakenFrom(b.temperature, draft.temperature, l.temperature, p.temperature)
                  && TakenFrom(b.source, draft.source, l.source, p.source))
  {
    if baseline.Some? && live.Some? {
      MergeIsThreeWay(baseline.value, draft, live.value);
    }
  }

  // What a read-back waits for, and which period it reports otherwise.
  lemma GoalsExactly(periods: seq<Period>, request: Pending, id: nat, payload: Values)
    ensures Looks(Creation(request), periods) ==
              if UniqueCandidate(periods, request).ChoiceRaises? then Raises else ConfirmedBy(periods, request)
    ensures Candidate(Creation(request), periods) == UniqueCandidate(periods, request)
    ensures Looks(Change(id, payload), periods) == UpdatedIn(periods, id, payload)
    ensures Candidate(Change(id, payload), periods) == Picked(WithId(periods, id))
    ensures Looks(Removal(id), periods) == if exists p :: p in periods && p.id == Some(id) then No else Yes
    ensures Candidate(Removal(id), periods) == Picked(None)
  {
  }

  // What is sent of a draft: its canonical form, if that is acceptable.
  lemma AcceptedExactly(draft: Values, acceptable: Values -> bool, v: Values)
    ensures AcceptedValues(draft, acceptable) == Some(v) <==>
              && Canonical(draft.start) == Some(v.start) && Canonical(draft.end) == Some(v.end)
              && v == draft.(start := v.start, end := v.end) && acceptable(v)
  {
  }

  /** How a deletion goes: at most one DELETE, with an expected state only after a list that still shows it. */
  ghost predicate DeleteRun(events: seq<Event>, g: Gateway, id: nat, expected: Option<Values>) {
    var n := if expected.Some? then 1 else 0;
    if |events| <= n then OnlyLists(events, g)
    else
      && events[n].Deleted? && events[n].gateway == g && events[n].id == id && OnlyLists(events[n + 1..], g)
      && (expected.Some? ==>
            IsList(events[0], g) && events[0].reply.Periods? && WriteOf(WithId(events[0].reply.periods, id)) == expected)
  }

  function WithId(periods: seq<Period>, id: nat): Option<Period> {
    if periods == [] then None
    else if periods[0].id == Some(id) then Some(periods[0]) else WithId(periods[1..], id)
  }

  function WriteOf(p: Option<Period>): Option<Values> { if p.Some? then p.value.write else None }

  /** The requests kept as pending are exactly the open ones. */
  ghost predicate Tracks(pending: map<Gateway, Pending>, log: seq<Event>) {
    forall g :: Open(log, g) == if g in pending then Some(pending[g]) else None
  }

  class HolidayWriteService {
    const attempts: nat
    var pending: map<Gateway, Pending>
    ghost var log: seq<Event>

    ghost predicate Valid()
      reads `pending, `log
    {
      attempts >= 1 && Justified(log) && Tracks(pending, log)
    }

    constructor (attempts: nat)
      requires attempts >= 1
      ensures Valid() && this.attempts == attempts && pending == map[] && log == []
    {
      this.attempts, pending, log := attempts, map[], [];
    }

    // The gateway answers every request arbitrarily; each request is logged with its answer.

    method ReadList(g: Gateway) returns (reply: ListReply)
      modifies `log
      ensures log == old(log) + [Listed(g, reply)]
    {
      reply := *;
      log := log + [Listed(g, reply)];
    }

    method SendPost(g: Gateway, request: Pending) returns (answer: WriteReply)
      modifies `log
      ensures log == old(log) + [Posted(g, request, answer)]
    {
      answer := *;
      log := log + [Posted(g, request, answer)];
    }

    method SendPut(g: Gateway, id: nat, payload: Values) returns (answer: WriteReply)
      modifies `log
      ensures log == old(log) + [Updated(g, id, payload, answer)]
    {
      answer := *;
      log := log + [Updated(g, id, payload, answer)];
    }

    method SendDelete(g: Gateway, id: nat) returns (answer: WriteReply)
      modifies `log
      ensures log == old(log) + [Deleted(g, id, answer)]
    {
      answer := *;
      log := log + [Deleted(g, id, answer)];
    }

    // Reads the list until it confirms the write; temporary failures and unusable lists use up an attempt.
    method Confirm(g: Gateway, goal: Goal) returns (r: Readback)
      requires attempts >= 1
      modifies `log
      ensures old(log) <= log && ReadsBack(log[|old(log)|..], g, goal, attempts, r)
    {
      ghost var before := log;
      var latest: Option<seq<Period>>, actual: Option<Period> := None, None;
      for attempt := 0 to attempts
        invariant before <= log && |log| == |before| + attempt
        invariant ReadsOn(log[|before|..], g, goal, latest, actual) == true
      {
        ghost var lists := log[|before|..];
        var reply := ReadList(g);
        ListedLast(before, lists, log, g, reply);
        if reply.ListFailed? {
          return Aborted;
        }
        if reply.Periods? {
          var choice := Candidate(goal, reply.periods);
          if choice.ChoiceRaises? || Confirmed(goal, reply.periods) == Raises {
            return Aborted;
          }
          if Confirmed(goal, reply.periods) == Yes {
            return Done(reply.periods);
          }
          ReadOn(lists, g, goal, reply, latest, actual);
          latest, actual := Some(reply.periods), choice.period;
        } else {
          ReadOn(lists, g, goal, reply, latest, actual);
        }
      }
      r := Unconfirmed(latest, actual);
    }

    /**
      Creates one period; an earlier request whose fate is open is only checked, never sent again. `acceptable` are the
      advertised capabilities.
     */
    method Create(g: Gateway, draft: Values, acceptable: Values -> bool) returns (outcome: Outcome)
      requires Valid()
      modifies this
      ensures Valid() && CreateRun(old(log), log, g, CanonicalValues(draft), outcome)
      ensures CreateEnds(old(log), log, g, AcceptedValues(draft, acceptable), attempts, outcome) == true
    {
      ghost var before := log;
      var canonical := CanonicalValues(draft);
      if canonical.None? || !acceptable(canonical.value) {
        return Failed;
      }
      if g in pending {
        outcome := Check(g, canonical.value);
        CheckIsCreate(before, before, log, g, canonical.value, outcome);
        return;
      }
      var refusal := Post(g, canonical.value);
      ghost var posted := log;
      assert SendsNew(before, posted, g, canonical.value, refusal) == true;
      if refusal.Some? {
        PostIsCreate(before, log, g, canonical.value, refusal.value);
        return refusal.value;
      }
      outcome := Check(g, canonical.value);
      CheckIsCreate(before, posted, log, g, canonical.value, outcome);
    }

    // Reads back the open request of a gateway, which need not be the caller's.
    method Check(g: Gateway, values: Values) returns (outcome: Outcome)
      requires Valid() && g in pending
      modifies `pending, `log
      ensures Valid() && CheckRun(old(log), log, g, values, outcome)
      ensures CheckEnds(old(log), log, g, values, attempts, outcome) == true
    {
      var request := pending[g];
      ghost var before := log;
      var r := Confirm(g, Creation(request));
      ghost var lists := log[|before|..];
      assert log == before + lists;
      ListsKeepValid(before, lists, g);
      outcome := if r.Done? && values != request.values then AlreadyExists(true) else OutcomeOf(r);
      if r.Done? {
        DoneWasRead(before, lists, g, r.periods);
        Settle(g, r.periods, request);
        SettledIsCheck(before, lists, g, values, r.periods, outcome);
      } else if r.Unconfirmed? && r.actual.Some? {
        LatestWasRead(before, lists, g, r.latest.value);
        Settle(g, r.latest.value, request);
        SettledIsCheck(before, lists, g, values, r.latest.value, outcome);
      }
      CheckedAs(before, lists, log, g, values, attempts, request, r, outcome);
    }

    method Settle(g: Gateway, periods: seq<Period>, ghost request: Pending)
      requires Valid() && g in pending && pending[g] == request && Settles(periods, request) && WasRead(log, g, periods)
      modifies `pending, `log
      ensures Valid() && log == old(log) + [Settled(g, periods)] && pending == old(pending) - {g}
    {
      JustifiedNext(log, Settled(g, periods));
      assert (log + [Settled(g, periods)])[..|log|] == log;
      pending, log := pending - {g}, log + [Settled(g, periods)];
    }

    // Sends one new request, after a list without a corresponding period. It is pending before it is sent.
    method Post(g: Gateway, values: Values) returns (refusal: Option<Outcome>)
      requires Valid() && g !in pending
      modifies `pending, `log
      ensures Valid() && old(log) <= log
      ensures refusal.None? ==> g in pending && pending[g].values == values
      ensures SendsNew(old(log), log, g, values, refusal) == true
    {
      ghost var before := log;
      var reply := ReadList(g);
      assert log[|before|..] == [Listed(g, reply)];
      ListsKeepValid(before, [Listed(g, reply)], g);
      if !reply.Periods? {
        return Some(Failed);
      }
      var existing := CreatedBefore(reply.periods, values);
      if existing == Raises {
        return Some(Failed);
      }
      if existing == Yes {
        return Some(AlreadyExists(false));
      }
      refusal := Submit(g, Pending(values, IdsOf(reply.periods)), before, reply.periods);
    }

    // Sends a new request, which is pending before it is sent.
    method Submit(g: Gateway, request: Pending, ghost before: seq<Event>, ghost periods: seq<Period>) returns (refusal: Option<Outcome>)
      requires Valid() && g !in pending && log == before + [Listed(g, Periods(periods))]
      requires CreatedBefore(periods, request.values) == No && request.previousIds == IdsOf(periods)
      modifies `pending, `log
      ensures Valid() && before <= log
      ensures refusal.None? ==> g in pending && pending[g].values == request.values
      ensures SendsNew(before, log, g, request.values, refusal) == true
    {
      ghost var listed := log;
      pending := pending[g := request];
      var answer := SendPost(g, request);
      SubmitIs(before, listed, g, periods, request, answer);
      match answer
      case Accepted => refusal := None;
      case TimedOut => refusal := None;
      case Unavailable => refusal := None;
      case Rejects =>
        pending := pending - {g};
        refusal := Some(Failed);
      case OtherFailure => refusal := Some(Failed);
    }

    /**
      Updates one period. `cached` are the periods already known; `acceptable` says of a payload and the live state that
      the advertised capabilities and the list parser accept them. The log says what was read and sent, and that a
      normal return carries the list read last, after the PUT.
     */
    method Update(g: Gateway, id: nat, cached: seq<Period>, draft: Values, expected: Option<Values>,
                  acceptable: (Values, Values) -> bool) returns (outcome: Outcome)
      requires Valid()
      modifies `log
      ensures Valid() && old(log) <= log
      ensures UpdateRun(log[|old(log)|..], g, id, if expected.Some? then expected else WriteOf(WithId(cached, id)), draft)
      ensures UpdateEnds(log[|old(log)|..], g, id, outcome)
      ensures UpdateDecides(log[|old(log)|..], g, id, cached, if expected.Some? then expected else WriteOf(WithId(cached, id)), draft,
                            acceptable, attempts, outcome) == true
    {
      ghost var before := log;
      var baseline := if expected.Some? then expected else WriteOf(WithId(cached, id));
      if WithId(cached, id).None? {
        return Failed;
      }
      var reply := ReadList(g);
      assert log[|before|..] == [Listed(g, reply)];
      ListsKeepValid(before, [Listed(g, reply)], g);
      if !reply.Periods? {
        return Failed;
      }
      var live := WriteOf(WithId(reply.periods, id));
      var payload := MergedPayload(baseline, draft, live);
      if payload.None? || !acceptable(payload.value, live.value) {
        return Failed;
      }
      outcome := Put(g, id, payload.value, before, reply);
      PutIsUpdate(log[|before|..], g, id, payload.value, reply, outcome, baseline, draft);
    }

    // One PUT and its read-back.
    method Put(g: Gateway, id: nat, payload: Values, ghost before: seq<Event>, ghost reply: ListReply) returns (outcome: Outcome)
      requires Valid() && log == before + [Listed(g, reply)]
      modifies `log
      ensures Valid() && before <= log
      ensures PutRun(log[|before|..], g, id, payload, reply, outcome)
      ensures WriteEnds(log[|before| + 2..], g, Change(id, payload), log[|before| + 1].answer, attempts, outcome) == true
    {
      var answer := SendPut(g, id, payload);
      ghost var sent := log;
      OtherKeepsValid(before + [Listed(g, reply)], Updated(g, id, payload, answer));
      outcome := ReadAfter(g, Change(id, payload), answer, sent);
      PutIsRun(before, g, id, payload, reply, answer, log, attempts, outcome);
    }

    // What follows a PUT or DELETE: nothing after a definite failure, and otherwise the read-back.
    method ReadAfter(g: Gateway, goal: Goal, answer: WriteReply, ghost sent: seq<Event>) returns (outcome: Outcome)
      requires Valid() && log == sent
      modifies `log
      ensures Valid() && sent <= log && WriteEnds(log[|sent|..], g, goal, answer, attempts, outcome) == true
    {
      assert log[|sent|..] == [];
      if answer.Rejects? || answer.OtherFailure? {
        return Failed;
      }
      var r := Confirm(g, goal);
      assert log == sent + log[|sent|..];
      ListsKeepValid(sent, log[|sent|..], g);
      outcome := OutcomeOf(r);
    }

    /** Deletes one period; with `expected` it must still be exactly this one. */
    method Delete(g: Gateway, id: nat, cached: seq<Period>, expected: Option<Values>) returns (outcome: Outcome)
      requires Valid()
      modifies `log
      ensures Valid() && old(log) <= log && DeleteRun(log[|old(log)|..], g, id, expected)
      ensures DeleteDecides(log[|old(log)|..], g, id, cached, expected, attempts, outcome) == true
      ensures outcome.Returned? ==>
                && |log| >= |old(log)| + 2 && log[|log| - 1] == Listed(g, Periods(outcome.periods))
                && forall p :: p in outcome.periods ==> p.id != Some(id)
    {
      ghost var before := log;
      if WithId(cached, id).None? {
        return Failed;
      }
      if expected.Some? {
        var reply := ReadList(g);
        assert log[|before|..] == [Listed(g, reply)];
        ListsKeepValid(before, [Listed(g, reply)], g);
        if !reply.Periods? {
          return Failed;
        }
        if WriteOf(WithId(reply.periods, id)) != expected {
          return Changed;
        }
      }
      ghost var ready := log;
      var answer := SendDelete(g, id);
      OtherKeepsValid(ready, Deleted(g, id, answer));
      outcome := ReadAfter(g, Removal(id), answer, log);
      DeletedAs(before, ready, log, g, id, cached, expected, answer, attempts, outcome);
    }
  }

  function OutcomeOf(r: Readback): Outcome {
    match r
    case Done(periods) => Returned(periods)
    case Unconfirmed(_, actual) => NotConfirmed(actual)
    case Aborted => Failed
  }

  /** The lists after a write, and the outcome they decide. */
  ghost predicate WriteEnds(lists: seq<Event>, g: Gateway, goal: Goal, answer: WriteReply, attempts: nat, outcome: Outcome) {
    if answer.Rejects? || answer.OtherFailure? then lists == [] && outcome == Failed
    else exists r :: ReadsBack(lists, g, goal, attempts, r) && outcome == OutcomeOf(r)
  }

  /** What an update sends and how it ends, for every sequence of replies. */
  ghost predicate UpdateDecides(events: seq<Event>, g: Gateway, id: nat, cached: seq<Period>, baseline: Option<Values>, draft: Values,
                                acceptable: (Values, Values) -> bool, attempts: nat, outcome: Outcome) {
    if WithId(cached, id).None? then events == [] && outcome == Failed
    else
      && events != [] && IsList(events[0], g)
      && (var live := if events[0].reply.Periods? then WriteOf(WithId(events[0].reply.periods, id)) else None;
          var payload := MergedPayload(baseline, draft, live);
          if payload.None? || !acceptable(payload.value, live.value) then |events| == 1 && outcome == Failed
          else
            && |events| >= 2 && events[1].Updated? && events[1] == Updated(g, id, payload.value, events[1].answer)
            && WriteEnds(events[2..], g, Change(id, payload.value), events[1].answer, attempts, outcome))
  }

  /** What a deletion sends and how it ends, for every sequence of replies. */
  ghost predicate DeleteDecides(events: seq<Event>, g: Gateway, id: nat, cached: seq<Period>, expected: Option<Values>, attempts: nat,
                                outcome: Outcome) {
    var n := if expected.Some? then 1 else 0;
    if WithId(cached, id).None? then events == [] && outcome == Failed
    else if expected.Some? && (events == [] || !IsList(events[0], g)) then false
    else if expected.Some? && !events[0].reply.Periods? then |events| == 1 && outcome == Failed
    else if expected.Some? && WriteOf(WithId(events[0].reply.periods, id)) != expected then |events| == 1 && outcome == Changed
    else
      && |events| > n && events[n].Deleted? && events[n] == Deleted(g, id, events[n].answer)
      && WriteEnds(events[n + 1..], g, Removal(id), events[n].answer, attempts, outcome)
  }

  lemma SubmitIs(before: seq<Event>, listed: seq<Event>, g: Gateway, periods: seq<Period>, request: Pending, answer: WriteReply)
    requires Justified(listed) && Open(listed, g).None? && listed == before + [Listed(g, Periods(periods))]
    requires CreatedBefore(periods, request.values) == No && request.previousIds == IdsOf(periods)
    ensures var log := listed + [Posted(g, request, answer)];
            && Justified(log) && before <= log && log[..|listed|] == listed
            && SendsNew(before, log, g, request.values,
                        if answer.Rejects? || answer.OtherFailure? then Some(Failed) else None) == true
  {
    var log := listed + [Posted(g, request, answer)];
    assert log[..|listed|] == listed && log[|before|..] == [Listed(g, Periods(periods)), Posted(g, request, answer)];
    JustifiedNext(listed, Posted(g, request, answer));
  }

  lemma PutIsRun(before: seq<Event>, g: Gateway, id: nat, payload: Values, reply: ListReply, answer: WriteReply, log: seq<Event>,
                 attempts: nat, outcome: Outcome)
    requires before + [Listed(g, reply)] + [Updated(g, id, payload, answer)] <= log
    requires WriteEnds(log[|before| + 2..], g, Change(id, payload), answer, attempts, outcome)
    ensures before <= log && log[|before| + 1] == Updated(g, id, payload, answer)
    ensures PutRun(log[|before|..], g, id, payload, reply, outcome)
  {
    var events := log[|before|..];
    assert events[2..] == log[|before| + 2..];
    if outcome.Returned? {
      UpdatedShows(outcome.periods, id, payload);
    }
  }

  lemma UpdatedShows(periods: seq<Period>, id: nat, payload: Values)
    ensures UpdatedIn(periods, id, payload) == Yes ==> exists p :: p in periods && p.modern && p.id == Some(id) && Matches(p, payload) == Yes
  {
    if UpdatedIn(periods, id, payload) == Yes {
      var i :| 0 <= i < |periods| && IsUpdated(periods[i], id, payload) == Yes;
      assert periods[i] in periods;
    }
  }

  lemma DeletedAs(before: seq<Event>, ready: seq<Event>, log: seq<Event>, g: Gateway, id: nat, cached: seq<Period>,
                  expected: Option<Values>, answer: WriteReply, attempts: nat, outcome: Outcome)
    requires ready + [Deleted(g, id, answer)] <= log && WithId(cached, id).Some?
    requires if expected.None? then ready == before
             else exists periods :: ready == before + [Listed(g, Periods(periods))] && WriteOf(WithId(periods, id)) == expected
    requires WriteEnds(log[|ready| + 1..], g, Removal(id), answer, attempts, outcome)
    ensures before <= log && DeleteRun(log[|before|..], g, id, expected)
    ensures DeleteDecides(log[|before|..], g, id, cached, expected, attempts, outcome) == true
    ensures outcome.Returned? ==>
              && |log| >= |before| + 2 && log[|log| - 1] == Listed(g, Periods(outcome.periods))
              && forall p :: p in outcome.periods ==> p.id != Some(id)
  {
    var events, n := log[|before|..], |ready| - |before|;
    assert log[|ready|] == Deleted(g, id, answer) && events[n + 1..] == log[|ready| + 1..];
    assert forall k :: 0 <= k < n ==> events[k] == ready[|before| + k];
  }

  /** The reads and settlements of one gateway, and with `posts` also its POSTs. */
  ghost predicate OnlyCreation(events: seq<Event>, g: Gateway, posts: bool) {
    forall i :: 0 <= i < |events| ==> events[i].gateway == g && (events[i].Listed? || events[i].Settled? || (posts && events[i].Posted?))
  }

  /** A creation that returned: the last list read holds the new period, and settled this request, sent before. */
  ghost predicate Created(log: seq<Event>, g: Gateway, periods: seq<Period>, values: Option<Values>) {
    && |log| >= 2 && log[|log| - 1] == Settled(g, periods) && log[|log| - 2] == Listed(g, Periods(periods))
    && Confirms(periods, Open(log[..|log| - 1], g), values)
  }

  /** How a creation goes: nothing is sent while an earlier request is open. */
  ghost predicate CreateRun(before: seq<Event>, log: seq<Event>, g: Gateway, values: Option<Values>, outcome: Outcome) {
    && before <= log && OnlyCreation(log[|before|..], g, Open(before, g).None?)
    && (outcome.Returned? ==> Created(log, g, outcome.periods, values))
    && !outcome.Changed?
  }

  function AcceptedValues(draft: Values, acceptable: Values -> bool): Option<Values> {
    var canonical := CanonicalValues(draft);
    if canonical.Some? && acceptable(canonical.value) then canonical else None
  }

  /** A new request was sent, or refused before or after. */
  ghost predicate SendsNew(before: seq<Event>, posted: seq<Event>, g: Gateway, values: Values, refusal: Option<Outcome>) {
    before <= posted && PostRun(posted[|before|..], g, values, refusal)
  }

  /** What settles a request: the list that confirmed it, or the latest one with the only candidate. */
  ghost function Settlement(g: Gateway, r: Readback): seq<Event> {
    match r
    case Done(periods) => [Settled(g, periods)]
    case Unconfirmed(latest, actual) => if latest.Some? && actual.Some? then [Settled(g, latest.value)] else []
    case Aborted => []
  }

  /** How checking the open request ends, for every sequence of replies. */
  ghost predicate CheckEnds(before: seq<Event>, log: seq<Event>, g: Gateway, values: Values, attempts: nat, outcome: Outcome) {
    Open(before, g).Some? && exists lists, r :: Checks(before, log, g, values, attempts, Open(before, g).value, outcome, lists, r)
  }

  ghost predicate Checks(before: seq<Event>, log: seq<Event>, g: Gateway, values: Values, attempts: nat, request: Pending,
                         outcome: Outcome, lists: seq<Event>, r: Readback) {
    && log == before + lists + Settlement(g, r) && ReadsBack(lists, g, Creation(request), attempts, r)
    && outcome == if r.Done? && values != request.values then AlreadyExists(true) else OutcomeOf(r)
  }

  /** How a creation ends, for every sequence of replies. */
  ghost predicate CreateEnds(before: seq<Event>, log: seq<Event>, g: Gateway, values: Option<Values>, attempts: nat, outcome: Outcome) {
    if values.None? then log == before && outcome == Failed
    else if Open(before, g).Some? then CheckEnds(before, log, g, values.value, attempts, outcome)
    else
      exists posted, refusal :: SendsNew(before, posted, g, values.value, refusal)
        && if refusal.Some? then log == posted && outcome == refusal.value else CheckEnds(posted, log, g, values.value, attempts, outcome)
  }

  lemma CheckedAs(before: seq<Event>, lists: seq<Event>, log: seq<Event>, g: Gateway, values: Values, attempts: nat, request: Pending,
                  r: Readback, outcome: Outcome)
    requires Open(before, g) == Some(request) && log == before + lists + Settlement(g, r)
    requires ReadsBack(lists, g, Creation(request), attempts, r)
    requires outcome == if r.Done? && values != request.values then AlreadyExists(true) else OutcomeOf(r)
    ensures CheckEnds(before, log, g, values, attempts, outcome) == true
  {
    assert Checks(before, log, g, values, attempts, request, outcome, lists, r);
  }

  ghost predicate CheckRun(before: seq<Event>, log: seq<Event>, g: Gateway, values: Values, outcome: Outcome) {
    && before <= log && OnlyCreation(log[|before|..], g, false)
    && (outcome.Returned? ==> Created(log, g, outcome.periods, Some(values)))
    && (outcome.AlreadyExists? ==> outcome.previousRequest) && !outcome.Changed?
  }

  lemma PostIsCreate(before: seq<Event>, log: seq<Event>, g: Gateway, values: Values, outcome: Outcome)
    requires before <= log && Open(before, g).None? && PostRun(log[|before|..], g, values, Some(outcome))
    ensures CreateRun(before, log, g, Some(values), outcome)
  {
  }

  lemma CheckIsCreate(before: seq<Event>, posted: seq<Event>, log: seq<Event>, g: Gateway, values: Values, outcome: Outcome)
    requires before <= posted && CheckRun(posted, log, g, values, outcome)
    requires posted == before || (Open(before, g).None? && PostRun(posted[|before|..], g, values, None))
    ensures CreateRun(before, log, g, Some(values), outcome)
  {
    if posted != before {
      PostIsCreation(posted[|before|..], g, values);
      CreationJoins(before, posted, log, g, true);
    } else {
      CreationJoins(before, posted, log, g, Open(before, g).None?);
    }
  }

  lemma PostIsCreation(events: seq<Event>, g: Gateway, values: Values)
    requires PostRun(events, g, values, None)
    ensures OnlyCreation(events, g, true)
  {
  }

  lemma CreationJoins(a: seq<Event>, b: seq<Event>, c: seq<Event>, g: Gateway, posts: bool)
    requires a <= b <= c && OnlyCreation(b[|a|..], g, posts) && OnlyCreation(c[|b|..], g, false)
    ensures OnlyCreation(c[|a|..], g, posts)
  {
    forall i | 0 <= i < |c[|a|..]|
      ensures c[|a|..][i] == if i < |b[|a|..]| then b[|a|..][i] else c[|b|..][i - |b[|a|..]|]
    {
    }
  }

  lemma SettledIsCheck(before: seq<Event>, lists: seq<Event>, g: Gateway, values: Values, periods: seq<Period>, outcome: Outcome)
    requires OnlyLists(lists, g) && !outcome.Changed? && (outcome.AlreadyExists? ==> outcome.previousRequest)
    requires outcome.Returned? ==>
               && outcome.periods == periods && lists != [] && lists[|lists| - 1] == Listed(g, Periods(periods))
               && Confirms(periods, Open(before + lists, g), Some(values))
    ensures CheckRun(before, before + lists + [Settled(g, periods)], g, values, outcome)
  {
    var log := before + lists + [Settled(g, periods)];
    assert log[|before|..] == lists + [Settled(g, periods)] && log[..|log| - 1] == before + lists;
  }

  /** How sending a new request goes: a list, then one POST unless the list is unusable or has the period already. */
  ghost predicate PostRun(events: seq<Event>, g: Gateway, values: Values, refusal: Option<Outcome>) {
    && events != [] && IsList(events[0], g)
    && (var existing := if events[0].reply.Periods? then CreatedBefore(events[0].reply.periods, values) else Raises;
        if existing != No then |events| == 1 && refusal == Some(if existing == Yes then AlreadyExists(false) else Failed)
        else
          && |events| == 2 && events[1].Posted? && events[1].gateway == g
          && events[1].request == Pending(values, IdsOf(events[0].reply.periods))
          && refusal == if events[1].answer.Rejects? || events[1].answer.OtherFailure? then Some(Failed) else None)
  }

  lemma ListedLast(before: seq<Event>, lists: seq<Event>, log: seq<Event>, g: Gateway, reply: ListReply)
    requires |log| > |before| && before <= log && lists == log[|before|..|log| - 1] && log[|log| - 1] == Listed(g, reply)
    ensures log[|before|..] == lists + [Listed(g, reply)] && log[|before|..][..|lists|] == lists
  {
  }

  // One more list that decides nothing.
  lemma ReadOn(lists: seq<Event>, g: Gateway, goal: Goal, reply: ListReply, latest: Option<seq<Period>>, actual: Option<Period>)
    requires ReadsOn(lists, g, goal, latest, actual) && !reply.ListFailed?
    requires reply.Periods? ==> Looks(goal, reply.periods) == No
    ensures var now := if reply.Periods? then Some(reply.periods) else latest;
            ReadsOn(lists + [Listed(g, reply)], g, goal, now,
                    if reply.Periods? then Candidate(goal, reply.periods).period else actual) == true
  {
    var longer := lists + [Listed(g, reply)];
    if reply.Periods? {
      assert LatestValid(longer, |lists|, g, reply.periods);
    } else if latest.Some? {
      var m :| LatestValid(lists, m, g, latest.value);
      assert LatestValid(longer, m, g, latest.value);
    }
  }

  lemma LatestWasRead(before: seq<Event>, lists: seq<Event>, g: Gateway, periods: seq<Period>)
    requires exists m :: LatestValid(lists, m, g, periods)
    ensures WasRead(before + lists, g, periods)
  {
    var m :| LatestValid(lists, m, g, periods);
    assert ReadAt(before + lists, |before| + m, g, periods);
  }

  lemma DoneWasRead(before: seq<Event>, lists: seq<Event>, g: Gateway, periods: seq<Period>)
    requires OnlyLists(lists, g) && lists != [] && lists[|lists| - 1] == Listed(g, Periods(periods))
    ensures WasRead(before + lists, g, periods)
  {
    assert ReadAt(before + lists, |before + lists| - 1, g, periods);
  }

  // Reading lists changes neither what is justified nor what is open.
  lemma {:induction false} ListsKeepValid(log: seq<Event>, lists: seq<Event>, h: Gateway)
    requires Justified(log) && OnlyLists(lists, h)
    ensures Justified(log + lists) && forall g :: Open(log + lists, g) == Open(log, g)
  {
    if lists == [] {
      assert log + lists == log;
    } else {
      var front := lists[..|lists| - 1];
      ListsKeepValid(log, front, h);
      OtherKeepsValid(log + front, lists[|lists| - 1]);
      assert log + front + [lists[|lists| - 1]] == log + lists;
    }
  }

  // Nor does a PUT or a DELETE.
  lemma OtherKeepsValid(log: seq<Event>, e: Event)
    requires Justified(log) && !e.Posted? && !e.Settled?
    ensures Justified(log + [e]) && forall g :: Open(log + [e], g) == Open(log, g)
  {
    assert (log + [e])[..|log|] == log;
    JustifiedNext(log, e);
  }

  // The period under an identifier is the first one that has it.
  lemma {:induction false} WithIdExactly(periods: seq<Period>, id: nat)
    ensures WithId(periods, id).None? <==> forall p :: p in periods ==> p.id != Some(id)
    ensures WithId(periods, id).Some? ==>
              exists i :: 0 <= i < |periods| && WithId(periods, id) == Some(periods[i]) && periods[i].id == Some(id)
                          && forall j :: 0 <= j < i ==> periods[j].id != Some(id)
  {
    if periods != [] && periods[0].id != Some(id) {
      WithIdExactly(periods[1..], id);
      assert forall p :: p in periods <==> p == periods[0] || p in periods[1..];
      if WithId(periods, id).Some? {
        var i :| 0 <= i < |periods[1..]| && WithId(periods, id) == Some(periods[1..][i]) && periods[1..][i].id == Some(id)
                 && forall j :: 0 <= j < i ==> periods[1..][j].id != Some(id);
        assert forall j :: 0 < j < i + 1 ==> periods[j] == periods[1..][j - 1];
        assert periods[i + 1] == periods[1..][i];
      }
    }
  }

  // An update is confirmed exactly by a period of the writable list under its identifier that shows the payload.
  lemma UpdatedExactly(periods: seq<Period>, id: nat, v: Values)
    requires Instant(v.start, false).Some? && Instant(v.end, true).Some?
    ensures UpdatedIn(periods, id, v) != Raises
    ensures UpdatedIn(periods, id, v) == Yes <==> exists p :: p in periods && p.modern && p.id == Some(id) && Shows(p, v)
  {
    forall p ensures IsUpdated(p, id, v) == if p.modern && p.id == Some(id) && Shows(p, v) then Yes else No {
      MatchesExactly(p, v);
    }
    NeverRaises(periods, p => IsUpdated(p, id, v));
  }

  function Absent(periods: seq<Period>, id: nat): Verdict {
    if forall p :: p in periods ==> p.id != Some(id) then Yes else No
  }

  function IsUpdated(p: Period, id: nat, v: Values): Verdict {
    if p.modern && p.id == Some(id) then Matches(p, v) else No
  }
}
