/**
  The snapshots a coordinator publishes (coordinator.py): the last good value of every resource and
  whether the latest attempt confirmed it.
 */
module Snapshots {
  import opened Common

  /** The contents of a resource; `text` is its scalar value. */
  datatype Value = Value(text: string)

  datatype Freshness = Fresh | Stale

  datatype Origin = FromDiscovery | FromBatch | FromFallback | FromWrite | FromStartup

  datatype Snapshot = Snapshot(resource: Value, available: bool, freshness: Freshness, lastSuccess: int, lastAttempt: Option<int>,
                               source: Origin, lastError: Option<string>, failures: nat)

  /** Everything that changes a published snapshot. */
  datatype Mutation =
    | Confirm(path: Path, value: Value, success: int, attempt: Option<int>, source: Origin)
    | FailRead(path: Path, at: int, category: string)
    | FailWrite(path: Path, tried: Option<int>, category: string, markSource: bool)
    | Defer(path: Path)

  function Confirmed(m: Mutation): Snapshot
    requires m.Confirm?
  {
    Snapshot(m.value, true, Fresh, m.success, m.attempt, m.source, None, 0)
  }

  function Changed(previous: Snapshot, m: Mutation): Snapshot
    requires !m.Confirm?
  {
    match m
    case FailRead(_, at, category) =>
      previous.(available := false, lastAttempt := Some(at), freshness := Stale, lastError := Some(category), failures := previous.failures + 1)
    case FailWrite(_, tried, category, markSource) =>
      previous.(available := false, freshness := Stale, lastAttempt := if tried.Some? then tried else previous.lastAttempt,
                source := if markSource then FromWrite else previous.source, lastError := Some(category))
    case Defer(_) =>
      previous.(available := false, freshness := Stale, lastError := Some("poll_deferred"))
  }

  // What each failure leaves: always the value and the time of the last success, else what it says itself.
  lemma ChangedExactly(previous: Snapshot, m: Mutation)
    requires !m.Confirm?
    ensures var after := Changed(previous, m);
            && after.resource == previous.resource && after.lastSuccess == previous.lastSuccess
            && !after.available && after.freshness == Stale
            && after.lastError == Some(if m.Defer? then "poll_deferred" else m.category)
            && (after.failures == if m.FailRead? then previous.failures + 1 else previous.failures)
            && (after.source == FromWrite <==> previous.source == FromWrite || (m.FailWrite? && m.markSource))
            && (after.source != FromWrite ==> after.source == previous.source)
            && (m.FailRead? ==> after.lastAttempt == Some(m.at))
            && (m.FailWrite? && m.tried.Some? ==> after.lastAttempt == m.tried)
            && (m.Defer? || (m.FailWrite? && m.tried.None?) ==> after.lastAttempt == previous.lastAttempt)
  {
  }

  /** A failure never creates a snapshot. */
  function Apply(data: map<Path, Snapshot>, m: Mutation): map<Path, Snapshot> {
    if m.Confirm? then data[m.path := Confirmed(m)]
    else if m.path in data then data[m.path := Changed(data[m.path], m)]
    else data
  }

  function ApplyAll(data: map<Path, Snapshot>, log: seq<Mutation>): map<Path, Snapshot> {
    if log == [] then data else Apply(ApplyAll(data, log[..|log| - 1]), log[|log| - 1])
  }

  lemma {:induction false} ApplyAllTwice(data: map<Path, Snapshot>, a: seq<Mutation>, b: seq<Mutation>)
    ensures ApplyAll(data, a + b) == ApplyAll(ApplyAll(data, a), b)
  {
    if b == [] {
      assert a + b == a;
    } else {
      ApplyAllTwice(data, a, b[..|b| - 1]);
      assert (a + b)[..|a + b| - 1] == a + b[..|b| - 1];
    }
  }

  /** A value counts as available exactly when the latest attempt confirmed it. */
  ghost predicate Coherent(data: map<Path, Snapshot>) {
    forall p :: p in data ==> (data[p].available <==> data[p].freshness == Fresh)
  }

  lemma {:induction false} StaysCoherent(data: map<Path, Snapshot>, log: seq<Mutation>)
    requires Coherent(data)
    ensures Coherent(ApplyAll(data, log))
  {
    if log != [] {
      StaysCoherent(data, log[..|log| - 1]);
    }
  }

  /** The last confirmation of a path, and whether anything happened to it since. */
  ghost function LastConfirm(log: seq<Mutation>, p: Path): Option<Mutation>
    ensures LastConfirm(log, p).Some? ==> LastConfirm(log, p).value.Confirm? && LastConfirm(log, p).value.path == p
  {
    if log == [] then None
    else if log[|log| - 1].Confirm? && log[|log| - 1].path == p then Some(log[|log| - 1])
    else LastConfirm(log[..|log| - 1], p)
  }

  ghost predicate Touched(log: seq<Mutation>, p: Path) { exists i :: 0 <= i < |log| && log[i].path == p }

  ghost predicate EndsConfirmed(log: seq<Mutation>, p: Path) {
    log != [] && (if log[|log| - 1].path == p then log[|log| - 1].Confirm? else EndsConfirmed(log[..|log| - 1], p))
  }

  // The history decides the snapshot: its value is the last confirmed one, kept through every failure, and it
  // is available exactly when the last thing that happened to it was a confirmation.
  lemma {:induction false} HistoryDecides(data: map<Path, Snapshot>, log: seq<Mutation>, p: Path)
    requires Coherent(data)
    ensures p in ApplyAll(data, log) <==> p in data || LastConfirm(log, p).Some?
    ensures p in ApplyAll(data, log) ==>
              ApplyAll(data, log)[p].resource == if LastConfirm(log, p).Some? then LastConfirm(log, p).value.value else data[p].resource
    ensures p in ApplyAll(data, log) && Touched(log, p) ==> (ApplyAll(data, log)[p].available <==> EndsConfirmed(log, p))
    ensures !Touched(log, p) ==> (p in ApplyAll(data, log) <==> p in data) && (p in data ==> ApplyAll(data, log)[p] == data[p])
  {
    if log != [] {
      var front := log[..|log| - 1];
      HistoryDecides(data, front, p);
      if log[|log| - 1].path != p {
        SameTouch(log, p);
      }
    }
  }

  /** The failed reads of a path since it was last confirmed. */
  ghost function FailedReads(log: seq<Mutation>, p: Path): nat {
    if log == [] then 0
    else
      var front, last := log[..|log| - 1], log[|log| - 1];
      if last.path != p then FailedReads(front, p)
      else if last.Confirm? then 0
      else FailedReads(front, p) + if last.FailRead? then 1 else 0
  }

  // The counter of a snapshot is the number of failed reads in a row; writes and deferrals do not count.
  lemma {:induction false} CountsFailedReads(data: map<Path, Snapshot>, log: seq<Mutation>, p: Path)
    requires p in ApplyAll(data, log)
    ensures LastConfirm(log, p).None? ==> p in data
    ensures ApplyAll(data, log)[p].failures == FailedReads(log, p) + if LastConfirm(log, p).None? then data[p].failures else 0
  {
    if log != [] {
      var front, last := log[..|log| - 1], log[|log| - 1];
      if !(last.Confirm? && last.path == p) {
        CountsFailedReads(data, front, p);
      }
    }
  }

  lemma SameTouch(log: seq<Mutation>, p: Path)
    requires log != [] && log[|log| - 1].path != p
    ensures Touched(log, p) <==> Touched(log[..|log| - 1], p)
  {
    var front := log[..|log| - 1];
    if Touched(log, p) {
      var i :| 0 <= i < |log| && log[i].path == p;
      assert front[i].path == p;
    }
    if Touched(front, p) {
      var i :| 0 <= i < |front| && front[i].path == p;
      assert log[i].path == p;
    }
  }
}
