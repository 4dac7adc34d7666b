/**
  The polling cycle of one gateway (coordinator.py): due groups, local pauses, chunked reads that may
  break off early, work that is resumed first, rate-limit backoff and the circuit breaker.
  Times are whole seconds; the cloud may answer every request with anything.
  On `P(x) == true` in contracts see Common.dfy.
 */
module Polling {
  import opened Common
  import opened Snapshots

  const MAX_BULK_PATHS: nat := 30
  const MAX_FALLBACK_PATHS: nat := 5
  const DAY: int := 86400
  const FORBIDDEN_PAUSE := DAY
  const NOT_FOUND_PAUSE := DAY
  const GATEWAY_TIMEOUT_PAUSE: int := 900
  const FORBIDDEN_PAUSE_THRESHOLD: nat := 2
  const DEFAULT_BACKOFF: int := 300
  const MAX_BACKOFF: int := 3600
  const UPDATE_INTERVAL: int := 60
  const CIRCUIT_FAILURE_THRESHOLD: nat := 3
  const CIRCUIT_OPEN_INTERVAL: int := 300
  const ACTIVE_NOTIFICATION_INTERVAL: int := 60
  const DUE_TOLERANCE: int := 1
  const PRIORITY_PATHS: seq<Path> := [
    Path("/heatSources/actualSupplyTemperature"), Path("/heatSources/returnTemperature"),
    Path("/heatSources/actualModulation"), Path("/heatSources/systemPressure"),
    Path("/system/sensors/temperatures/outdoor_t1")]

  datatype Group = Fast | Notifications | Control | Energy | Slow | Static

  /** What a request says about one path. */
  datatype Result = Result(path: Path, status: Option<int>, value: Option<Value>, malformed: bool, category: string) {
    predicate Recoverable() { value.None? && (malformed || (status.Some? && 500 <= status.value <= 599)) }

    predicate IsOk() { value.Some? }
  }

  datatype Attempt = Attempt(result: Result, source: Origin)

  function MutationOf(a: Attempt, now: int): Mutation {
    if a.result.value.Some? then Confirm(a.result.path, a.result.value.value, now, Some(now), a.source)
    else FailRead(a.result.path, now, a.result.category)
  }

  function MutationsOf(attempts: seq<Attempt>, now: int): (r: seq<Mutation>)
    ensures |r| == |attempts|
  {
    seq(|attempts|, i requires 0 <= i < |attempts| => MutationOf(attempts[i], now))
  }

  function Successes(attempts: seq<Attempt>): nat {
    if attempts == [] then 0
    else Successes(attempts[..|attempts| - 1]) + if attempts[|attempts| - 1].result.IsOk() then 1 else 0
  }

  // ----- Which paths a cycle reads -----

  predicate Paused(pauses: map<Path, int>, p: Path, now: int) { p in pauses && now < pauses[p] }

  function NextOf(next: map<Group, int>, g: Group): int { if g in next then next[g] else 0 }

  predicate IsDue(next: map<Group, int>, g: Group, now: int) { now + DUE_TOLERANCE >= NextOf(next, g) }

  function DueGroups(groups: seq<Group>, next: map<Group, int>, now: int): (due: seq<Group>)
    ensures forall g :: g in due <==> g in groups && IsDue(next, g, now)
  {
    if groups == [] then []
    else (if IsDue(next, groups[0], now) then [groups[0]] else []) + DueGroups(groups[1..], next, now)
  }

  function PathsOf(byGroup: map<Group, seq<Path>>, g: Group): seq<Path> { if g in byGroup then byGroup[g] else [] }

  function Candidates(due: seq<Group>, byGroup: map<Group, seq<Path>>): (paths: seq<Path>)
    ensures forall p :: p in paths <==> exists g :: g in due && p in PathsOf(byGroup, g)
  {
    if due == [] then [] else
      var rest := Candidates(due[1..], byGroup);
      assert forall g :: g in due <==> g == due[0] || g in due[1..];
      PathsOf(byGroup, due[0]) + rest
  }

  function Keep(s: seq<Path>, wanted: set<Path>): (r: seq<Path>)
    ensures forall p :: p in r <==> p in s && p in wanted
    ensures |r| <= |s|
  {
    if s == [] then []
    else
      var front, last := Keep(s[..|s| - 1], wanted), s[|s| - 1];
      if last in wanted then front + [last] else front
  }

  /** The first occurrence of every path, in order (`dict.fromkeys`). */
  function Unique(s: seq<Path>): (r: seq<Path>)
    ensures forall p :: p in r <==> p in s
    ensures NoRepeats(r)
  {
    if s == [] then []
    else
      var front, last := Unique(s[..|s| - 1]), s[|s| - 1];
      if last in front then front else front + [last]
  }

  /** The paths of a cycle in the order in which they are read: those left over come before the others, each once. */
  function Resumed(deferred: seq<Path>, paths: seq<Path>): (r: seq<Path>)
    ensures forall p :: p in r <==> p in paths
    ensures NoRepeats(r)
  {
    Unique(Keep(deferred, Elements(paths)) + paths)
  }

  lemma {:induction false} KeepMovesForward(s: seq<Path>, wanted: set<Path>, i: nat) returns (m: nat)
    requires i < |s| && s[i] in wanted
    ensures m <= i && m < |Keep(s, wanted)| && Keep(s, wanted)[m] == s[i]
  {
    if i == |s| - 1 {
      m := |Keep(s[..i], wanted)|;
    } else {
      m := KeepMovesForward(s[..|s| - 1], wanted, i);
    }
  }

  lemma {:induction false} UniqueMovesForward(s: seq<Path>, i: nat) returns (m: nat)
    requires i < |s|
    ensures m <= i && m < |Unique(s)| && Unique(s)[m] == s[i]
  {
    var front := s[..|s| - 1];
    if i < |front| {
      m := UniqueMovesForward(front, i);
    } else if s[i] in Unique(front) {
      var j :| 0 <= j < |front| && front[j] == s[i];
      m := UniqueMovesForward(front, j);
    } else {
      UniqueShorter(front);
      m := |Unique(front)|;
    }
  }

  lemma {:induction false} UniqueShorter(s: seq<Path>)
    ensures |Unique(s)| <= |s|
  {
    if s != [] {
      UniqueShorter(s[..|s| - 1]);
    }
  }

  // A deferred path that is read again keeps its place or moves forward.
  lemma DeferredMovesForward(deferred: seq<Path>, paths: seq<Path>, i: nat) returns (m: nat)
    requires i < |deferred| && deferred[i] in paths
    ensures m <= i && m < |Resumed(deferred, paths)| && Resumed(deferred, paths)[m] == deferred[i]
  {
    var kept := Keep(deferred, Elements(paths));
    var k := KeepMovesForward(deferred, Elements(paths), i);
    m := UniqueMovesForward(kept + paths, k);
  }

  lemma {:induction false} UniquePrefix(a: seq<Path>, b: seq<Path>)
    ensures Unique(a) <= Unique(a + b)
  {
    if b == [] {
      assert a + b == a;
    } else {
      UniquePrefix(a, b[..|b| - 1]);
      assert (a + b)[..|a + b| - 1] == a + b[..|b| - 1];
    }
  }

  // What was deferred is read before everything else.
  lemma DeferredFirst(deferred: seq<Path>, paths: seq<Path>, i: nat, j: nat)
    requires i < j < |Resumed(deferred, paths)| && Resumed(deferred, paths)[j] in deferred
    ensures Resumed(deferred, paths)[i] in deferred
  {
    var kept, r := Keep(deferred, Elements(paths)), Resumed(deferred, paths);
    UniquePrefix(kept, paths);
    assert r[j] in r && r[j] in kept && r[j] in Unique(kept);
    var m :| 0 <= m < |Unique(kept)| && Unique(kept)[m] == r[j];
    assert r[m] == r[j] && r[i] == Unique(kept)[i];
  }

  // ----- Runs of cycles -----

  /** What decides which paths are read next. */
  datatype View = View(deferred: seq<Path>, next: map<Group, int>, pauses: map<Path, int>)

  /** One executed cycle: what it had to read, how much of it was in the bulk requests it sent, the groups it advanced. */
  datatype Cycle = Cycle(now: int, groups: seq<Group>, byGroup: map<Group, seq<Path>>, paths: seq<Path>, attempted: nat,
                         requests: seq<seq<Path>>, advanced: seq<Group>)

  function Flat(requests: seq<seq<Path>>): seq<Path> {
    if requests == [] then [] else Flat(requests[..|requests| - 1]) + requests[|requests| - 1]
  }

  /** The requests are the consecutive chunks of these paths, all but the last of full size. */
  ghost predicate Chunked(requests: seq<seq<Path>>, paths: seq<Path>) {
    if requests == [] then paths == []
    else
      var front, last := requests[..|requests| - 1], requests[|requests| - 1];
      && 1 <= |last| <= MAX_BULK_PATHS && |last| <= |paths| && paths[|paths| - |last|..] == last
      && (front != [] ==> |front[|front| - 1]| == MAX_BULK_PATHS)
      && Chunked(front, paths[..|paths| - |last|])
  }

  lemma {:induction false} ChunkedIsFlat(requests: seq<seq<Path>>, paths: seq<Path>)
    requires Chunked(requests, paths)
    ensures Flat(requests) == paths
  {
    if requests != [] {
      var last := requests[|requests| - 1];
      ChunkedIsFlat(requests[..|requests| - 1], paths[..|paths| - |last|]);
      assert paths == paths[..|paths| - |last|] + last;
    }
  }

  ghost predicate IsRequested(requests: seq<seq<Path>>, p: Path) { exists i :: 0 <= i < |requests| && p in requests[i] }

  lemma {:induction false} FlatIsRequested(requests: seq<seq<Path>>, p: Path)
    ensures p in Flat(requests) <==> IsRequested(requests, p)
  {
    if requests != [] {
      var front := requests[..|requests| - 1];
      FlatIsRequested(front, p);
      assert forall i :: 0 <= i < |front| ==> front[i] == requests[i];
    }
  }

  function Unpaused(paths: seq<Path>, pauses: map<Path, int>, now: int): (r: seq<Path>)
    ensures forall p :: p in r <==> p in paths && !Paused(pauses, p, now)
  {
    if paths == [] then []
    else
      var front, last := Unpaused(paths[..|paths| - 1], pauses, now), paths[|paths| - 1];
      if Paused(pauses, last, now) then front else front + [last]
  }

  /** A pause is only ever set on a path that was attempted. */
  ghost predicate PausesOnly(before: map<Path, int>, after: map<Path, int>, attempted: set<Path>) {
    forall p :: p in after && p !in attempted ==> p in before && before[p] == after[p]
  }

  /** Of these paths, exactly the pauses that have run out are forgotten. */
  ghost predicate Expires(before: map<Path, int>, after: map<Path, int>, paths: seq<Path>, now: int) {
    && (forall p :: p in after <==> p in before && !(p in paths && now >= before[p]))
    && forall p :: p in after ==> after[p] == before[p]
  }

  /** What a cycle reads: the unpaused paths of the groups that are due, deferred ones first. */
  function PathsDue(v: View, groups: seq<Group>, byGroup: map<Group, seq<Path>>, now: int): (r: seq<Path>)
    ensures NoRepeats(r)
  {
    Resumed(v.deferred, Unpaused(Candidates(DueGroups(groups, v.next, now), byGroup), v.pauses, now))
  }

  // Exactly the paths of the due groups that are not paused are read, each once; deferred ones come first.
  lemma PathsDueExactly(v: View, groups: seq<Group>, byGroup: map<Group, seq<Path>>, now: int)
    ensures forall p :: p in PathsDue(v, groups, byGroup, now) <==> IsCandidate(v, groups, byGroup, now, p)
    ensures NoRepeats(PathsDue(v, groups, byGroup, now))
    ensures forall i, j :: 0 <= i < j < |PathsDue(v, groups, byGroup, now)| && PathsDue(v, groups, byGroup, now)[j] in v.deferred ==>
              PathsDue(v, groups, byGroup, now)[i] in v.deferred
  {
    var due := DueGroups(groups, v.next, now);
    var eligible := Unpaused(Candidates(due, byGroup), v.pauses, now);
    forall i, j | 0 <= i < j < |PathsDue(v, groups, byGroup, now)| && PathsDue(v, groups, byGroup, now)[j] in v.deferred
      ensures PathsDue(v, groups, byGroup, now)[i] in v.deferred {
      DeferredFirst(v.deferred, eligible, i, j);
    }
    forall p ensures p in eligible <==> IsCandidate(v, groups, byGroup, now, p) {
      if p in eligible {
        var g :| g in due && p in PathsOf(byGroup, g);
        assert IsDueWith(v, groups, byGroup, now, p, g);
      }
      if IsCandidate(v, groups, byGroup, now, p) {
        var g :| IsDueWith(v, groups, byGroup, now, p, g);
        assert g in due && p in PathsOf(byGroup, g);
      }
    }
  }

  ghost predicate IsCandidate(v: View, groups: seq<Group>, byGroup: map<Group, seq<Path>>, now: int, p: Path) {
    exists g :: IsDueWith(v, groups, byGroup, now, p, g)
  }

  /** The group is due, at most one second early, and nothing pauses the path now. */
  ghost predicate IsDueWith(v: View, groups: seq<Group>, byGroup: map<Group, seq<Path>>, now: int, p: Path, g: Group) {
    && g in groups && (g in v.next ==> v.next[g] <= now + 1) && (g !in v.next ==> 0 <= now + 1) && g in byGroup && p in byGroup[g]
    && (p in v.pauses ==> v.pauses[p] <= now)
  }

  ghost predicate AreDue(paths: seq<Path>, v: View, groups: seq<Group>, byGroup: map<Group, seq<Path>>, now: int) {
    paths == PathsDue(v, groups, byGroup, now)
  }

  ghost predicate Executed(before: View, c: Cycle, after: View) {
    AreDue(c.paths, before, c.groups, c.byGroup, c.now) && Ends(before, c, after)
  }

  /** How a cycle that reads `c.paths` ends. */
  ghost predicate Ends(before: View, c: Cycle, after: View) {
    && Min(MAX_BULK_PATHS, |c.paths|) <= c.attempted <= |c.paths|
    && Chunked(c.requests, c.paths[..c.attempted]) == true
    && after.deferred == (if c.paths == [] then before.deferred else c.paths[c.attempted..])
    && AdvancesOnly(before.next, c.advanced, after.next)
    && AdvancesComplete(c)
    && PausesOnly(before.pauses, after.pauses, Elements(c.paths[..c.attempted]))
  }

  ghost predicate AdvancesOnly(before: map<Group, int>, advanced: seq<Group>, after: map<Group, int>) {
    forall g :: g !in advanced ==> NextOf(after, g) == NextOf(before, g)
  }

  /** A group with an unattempted path is never advanced. */
  ghost predicate AdvancesComplete(c: Cycle)
    requires c.attempted <= |c.paths|
  {
    forall g, p :: g in c.advanced && p in PathsOf(c.byGroup, g) && p in c.paths ==> p in c.paths[..c.attempted]
  }

  /** Anything else: a refused or aborted cycle, a refresh request, a targeted read. It postpones no group beyond now. */
  ghost predicate Quiet(before: View, requests: seq<seq<Path>>, now: int, after: View) {
    && after.deferred == before.deferred
    && (forall g :: NextOf(after.next, g) <= Max(NextOf(before.next, g), now))
    && PausesOnly(before.pauses, after.pauses, Elements(Flat(requests)))
  }

  // Forgetting pauses that have run out changes nothing of this.
  lemma SameFrom(before: View, mid: View, step: Step, after: View)
    requires mid == before.(pauses := mid.pauses) && PausesOnly(before.pauses, mid.pauses, {})
    ensures step.Executes? && Ends(mid, step.cycle, after) ==> Ends(before, step.cycle, after)
    ensures step.Rests? && Quiet(mid, step.requests, step.at, after) ==> Quiet(before, step.requests, step.at, after)
  {
  }

  datatype Step = Executes(cycle: Cycle) | Rests(requests: seq<seq<Path>>, at: int) {
    function Time(): int { if Executes? then cycle.now else at }

    function Requests(): seq<seq<Path>> { if Executes? then cycle.requests else requests }
  }

  ghost predicate Follows(before: View, step: Step, after: View) {
    match step
    case Executes(c) => Executed(before, c, after)
    case Rests(requests, at) => Quiet(before, requests, at, after)
  }

  ghost predicate IsRun(views: seq<View>, steps: seq<Step>) {
    |views| == |steps| + 1 && forall k :: 0 <= k < |steps| ==> Follows(views[k], steps[k], views[k + 1])
  }

  /** A step of which `p` is still a member of the polled group `g`, not earlier than `clock`. */
  ghost predicate Stays(step: Step, p: Path, g: Group, clock: int) {
    step.Time() >= clock && (step.Executes? ==> g in step.cycle.groups && p in PathsOf(step.cycle.byGroup, g))
  }

  /** A request for `p` is sent. */
  ghost predicate Attempts(step: Step, p: Path) { IsRequested(step.Requests(), p) }

  function Executions(steps: seq<Step>): nat {
    if steps == [] then 0 else (if steps[0].Executes? then 1 else 0) + Executions(steps[1..])
  }

  /** `p` waits at position `i`: its group is due from `clock` on, and nothing pauses it. */
  ghost predicate Waits(v: View, p: Path, g: Group, i: nat, clock: int) {
    i < |v.deferred| && v.deferred[i] == p && NextOf(v.next, g) <= clock + DUE_TOLERANCE && !Paused(v.pauses, p, clock)
  }

  // A path that a cycle leaves unread waits for the next one: its group stays due, and it is not paused.
  lemma DeferredWaits(before: View, c: Cycle, after: View, i: nat) returns (g: Group)
    requires Executed(before, c, after) && c.paths != [] && i < |after.deferred|
    ensures g in c.groups && after.deferred[i] in PathsOf(c.byGroup, g) && Waits(after, after.deferred[i], g, i, c.now)
  {
    assert after.deferred[i] == c.paths[c.attempted + i];
    g := GroupOf(before, c, after.deferred[i]);
    UnreadWaits(before, c, after, i, g);
  }

  lemma UnreadWaits(before: View, c: Cycle, after: View, i: nat, g: Group)
    requires Ends(before, c, after) && NoRepeats(c.paths) && c.paths != [] && i < |after.deferred|
    requires var p := after.deferred[i]; p in PathsOf(c.byGroup, g) && !Paused(before.pauses, p, c.now)
    requires IsDue(before.next, g, c.now)
    ensures Waits(after, after.deferred[i], g, i, c.now)
  {
    var p := c.paths[c.attempted + i];
    assert after.deferred[i] == p && p in c.paths && p !in c.paths[..c.attempted];
    assert g !in c.advanced;
  }

  lemma GroupOf(before: View, c: Cycle, p: Path) returns (g: Group)
    requires c.paths == PathsDue(before, c.groups, c.byGroup, c.now) && p in c.paths
    ensures g in c.groups && IsDue(before.next, g, c.now) && p in PathsOf(c.byGroup, g) && !Paused(before.pauses, p, c.now)
  {
    var due := DueGroups(c.groups, before.next, c.now);
    assert p in Candidates(due, c.byGroup);
    g :| g in due && p in PathsOf(c.byGroup, g);
  }

  lemma ReadIsRequested(requests: seq<seq<Path>>, paths: seq<Path>, k: nat)
    requires Chunked(requests, paths) && k < |paths|
    ensures IsRequested(requests, paths[k])
  {
    ChunkedIsFlat(requests, paths);
    FlatIsRequested(requests, paths[k]);
  }

  lemma WaitingIsRead(before: View, c: Cycle, after: View, p: Path, g: Group, i: nat, clock: int) returns (k: nat)
    requires Executed(before, c, after) && Waits(before, p, g, i, clock) && Stays(Executes(c), p, g, clock)
    ensures k <= i && k < |c.paths| && c.paths[k] == p
  {
    var due := DueGroups(c.groups, before.next, c.now);
    var eligible := Unpaused(Candidates(due, c.byGroup), before.pauses, c.now);
    assert g in due && p in Candidates(due, c.byGroup) && p in eligible;
    k := DeferredMovesForward(before.deferred, eligible, i);
  }

  // One executed cycle attempts the first chunk, and moves everything else forward by at least one chunk.
  lemma CycleMovesForward(before: View, c: Cycle, after: View, p: Path, g: Group, i: nat, clock: int) returns (m: nat)
    requires Executed(before, c, after) && Waits(before, p, g, i, clock) && Stays(Executes(c), p, g, clock)
    ensures !Attempts(Executes(c), p) ==> m + MAX_BULK_PATHS <= i && Waits(after, p, g, m, c.now)
  {
    var k := WaitingIsRead(before, c, after, p, g, i, clock);
    EndsExecuted(before, c, after);
    m := MovesTo(before, c, after, p, g, i, clock, k);
  }

  lemma MovesTo(before: View, c: Cycle, after: View, p: Path, g: Group, i: nat, clock: int, k: nat) returns (m: nat)
    requires Ends(before, c, after) == true && NoRepeats(c.paths) == true
    requires Waits(before, p, g, i, clock) == true && Stays(Executes(c), p, g, clock) == true
    requires k <= i && k < |c.paths| && c.paths[k] == p
    ensures !Attempts(Executes(c), p) ==> m + MAX_BULK_PATHS <= i && Waits(after, p, g, m, c.now)
  {
    if k < c.attempted {
      m := 0;
      AttemptedIsRequested(before, c, after, k);
    } else {
      m := k - c.attempted;
      SkippedWaits(before, c, after, p, g, i, clock, k);
    }
  }

  lemma EndsExecuted(before: View, c: Cycle, after: View)
    requires Executed(before, c, after)
    ensures Ends(before, c, after) == true && NoRepeats(c.paths) == true
  {
  }

  lemma AttemptedIsRequested(before: View, c: Cycle, after: View, k: nat)
    requires Ends(before, c, after) && k < c.attempted
    ensures Attempts(Executes(c), c.paths[k])
  {
    ReadIsRequested(c.requests, c.paths[..c.attempted], k);
  }

  lemma SkippedWaits(before: View, c: Cycle, after: View, p: Path, g: Group, i: nat, clock: int, k: nat)
    requires Ends(before, c, after) == true && NoRepeats(c.paths) == true
    requires Waits(before, p, g, i, clock) == true && Stays(Executes(c), p, g, clock) == true
    requires c.attempted <= k < |c.paths| && c.paths[k] == p
    ensures Waits(after, p, g, k - c.attempted, c.now) && (k <= i ==> k - c.attempted + MAX_BULK_PATHS <= i)
  {
    StillDue(before, c, p, g, i, clock);
    LeftUnread(before, c, after, k);
    UnreadWaits(before, c, after, k - c.attempted, g);
  }

  lemma StillDue(before: View, c: Cycle, p: Path, g: Group, i: nat, clock: int)
    requires Waits(before, p, g, i, clock) && Stays(Executes(c), p, g, clock)
    ensures p in PathsOf(c.byGroup, g) && IsDue(before.next, g, c.now) && !Paused(before.pauses, p, c.now)
  {
  }

  lemma LeftUnread(before: View, c: Cycle, after: View, k: nat)
    requires Ends(before, c, after) && c.attempted <= k < |c.paths|
    ensures k - c.attempted < |after.deferred| && after.deferred[k - c.attempted] == c.paths[k] && MAX_BULK_PATHS <= c.attempted
  {
  }

  /** `p` stays in the polled group `g` in every executed cycle, and time does not run backwards. */
  ghost predicate StaysThroughout(steps: seq<Step>, p: Path, g: Group, clock: int) {
    steps == [] || (Stays(steps[0], p, g, clock)
                    && StaysThroughout(steps[1..], p, g, steps[0].Time()))
  }

  // No starvation: a path at position i of the deferred list is attempted within floor(i / 30) + 1 executed cycles,
  // however earlier batches fail, as long as it stays in its polled group.
  lemma {:induction false} NeverStarves(views: seq<View>, steps: seq<Step>, p: Path, g: Group, i: nat, clock: int) returns (k: nat)
    requires IsRun(views, steps) && Waits(views[0], p, g, i, clock) && StaysThroughout(steps, p, g, clock)
    requires Executions(steps) >= i / MAX_BULK_PATHS + 1
    ensures k < |steps| && Attempts(steps[k], p)
    decreases |steps|
  {
    assert Follows(views[0], steps[0], views[1]);
    if Attempts(steps[0], p) {
      return 0;
    }
    var position := i;
    FlatIsRequested(steps[0].Requests(), p);
    if steps[0].Executes? {
      position := CycleMovesForward(views[0], steps[0].cycle, views[1], p, g, i, clock);
    }
    RunTail(views, steps);
    var m := NeverStarves(views[1..], steps[1..], p, g, position, steps[0].Time());
    k := m + 1;
  }

  lemma RunTail(views: seq<View>, steps: seq<Step>)
    requires IsRun(views, steps) && steps != []
    ensures IsRun(views[1..], steps[1..])
  {
    forall k | 0 <= k < |steps[1..]| ensures Follows(views[1..][k], steps[1..][k], views[1..][k + 1]) {
      assert Follows(views[k + 1], steps[k + 1], views[k + 2]);
    }
  }

  // ----- Backoff, circuit breaker and pauses -----

  datatype Cloud = Cloud(backoffUntil: int, circuitOpenUntil: int, failures: nat, rateLimits: nat) {
    predicate Refuses(now: int) { now < backoffUntil || now < circuitOpenUntil }

    function RateLimited(retryAfter: Option<int>, now: int): (after: Cloud)
      ensures now + UPDATE_INTERVAL <= after.backoffUntil <= now + MAX_BACKOFF
      ensures after.Refuses(now)
    {
      var requested := if retryAfter.Some? then retryAfter.value else DEFAULT_BACKOFF;
      this.(rateLimits := rateLimits + 1, backoffUntil := now + Min(Max(requested, UPDATE_INTERVAL), MAX_BACKOFF))
    }

    function GatewayFailed(now: int): (after: Cloud)
      ensures after.circuitOpenUntil != circuitOpenUntil ==> after.failures >= CIRCUIT_FAILURE_THRESHOLD
    {
      if failures + 1 >= CIRCUIT_FAILURE_THRESHOLD then
        this.(failures := failures + 1, circuitOpenUntil := now + CIRCUIT_OPEN_INTERVAL)
      else this.(failures := failures + 1)
    }

    function Recovered(): Cloud { this.(failures := 0, circuitOpenUntil := 0) }

    // Rate limits do not touch the circuit breaker.
    predicate SameCircuit(before: Cloud) { failures == before.failures && circuitOpenUntil == before.circuitOpenUntil }

    // Nor does the circuit breaker touch the backoff.
    predicate SameBackoff(before: Cloud) { rateLimits == before.rateLimits && backoffUntil == before.backoffUntil }
  }

  /** Individual reads start the backoff exactly if the last one was refused by a rate limit. */
  ghost predicate Backs(before: Cloud, after: Cloud, events: seq<Event>, now: int) { after == Backed(before, events, now) }

  ghost function Backed(before: Cloud, events: seq<Event>, now: int): Cloud {
    if RefusedLast(events) then
      var last := events[|events| - 1].single;
      before.RateLimited(last.retryAfter, Max(now, last.at))
    else before
  }

  /** What the rate limits met in one chunk make of the backoff. */
  ghost function BackedByChunk(before: Cloud, chunk: seq<Event>, now: int): Cloud {
    if chunk == [] || chunk[0].Single? then before
    else match chunk[0].reply
      case AuthenticationReply => before
      case RateLimitedReply(retryAfter) => before.RateLimited(retryAfter, now)
      case Items(results) => if AnyStatus(results, 429) then before.RateLimited(None, now) else Backed(before, chunk[1..], now)
      case FailedReply(_) =>
        var after := Backed(before, chunk[1..], now);
        if !LosesAuth(chunk[1..]) && IsLimited(AttemptsOf(chunk[1..])) then after.RateLimited(None, now) else after
  }

  /** The backoff after a cycle: only its last chunk can have met a rate limit. */
  ghost predicate BackoffStep(before: Cloud, after: Cloud, events: seq<Event>, now: int) {
    && (events == [] ==> after.SameBackoff(before))
    && forall k :: IsChunk(events, k, |events|) ==> after.SameBackoff(BackedByChunk(before, events[k..], now))
  }

  // The backoff is what the server asks for, within a minute and an hour, and five minutes if it asks for nothing.
  lemma BackoffExactly(c: Cloud, retryAfter: Option<int>, now: int)
    ensures var after := c.RateLimited(retryAfter, now);
            && after.SameCircuit(c) && after.rateLimits == c.rateLimits + 1
            && (retryAfter.None? ==> after.backoffUntil == now + 300)
            && (retryAfter.Some? ==>
                  && (60 <= retryAfter.value <= 3600 ==> after.backoffUntil == now + retryAfter.value)
                  && (retryAfter.value < 60 ==> after.backoffUntil == now + 60)
                  && (retryAfter.value > 3600 ==> after.backoffUntil == now + 3600))
  {
  }

  /** What one poll does to the circuit breaker. */
  ghost predicate CircuitStep(before: Cloud, after: Cloud, outcome: Outcome, successes: nat, suspect: bool, now: int) {
    if outcome == Refreshed && successes > 0 then after.failures == 0 && after.circuitOpenUntil == 0
    else if outcome == Unusable && suspect then
      && after.failures == before.failures + 1
      && after.circuitOpenUntil == if after.failures >= CIRCUIT_FAILURE_THRESHOLD then now + CIRCUIT_OPEN_INTERVAL else before.circuitOpenUntil
    else after.SameCircuit(before)
  }

  /** One poll: how it ended, how many values it read, and whether it put the whole gateway in doubt. */
  datatype Ended = Ended(outcome: Outcome, successes: nat, suspect: bool, now: int)

  ghost predicate CloudRun(clouds: seq<Cloud>, polls: seq<Ended>) {
    |clouds| == |polls| + 1
    && forall k :: 0 <= k < |polls| ==> CircuitStep(clouds[k], clouds[k + 1], polls[k].outcome, polls[k].successes, polls[k].suspect, polls[k].now)
  }

  /** The unusable cycles that put the gateway in doubt, since the last one that read a value. */
  function UnusableSince(polls: seq<Ended>): nat {
    if polls == [] then 0
    else
      var last := polls[|polls| - 1];
      if last.outcome == Refreshed && last.successes > 0 then 0
      else UnusableSince(polls[..|polls| - 1]) + if last.outcome == Unusable && last.suspect then 1 else 0
  }

  // The circuit breaker counts exactly these cycles. It is open only after the third of them, and the third opens it for
  // five minutes, as does each later one.
  lemma {:induction false} OpensAfterThreeFailures(clouds: seq<Cloud>, polls: seq<Ended>)
    requires CloudRun(clouds, polls) && clouds[0].failures == 0 && clouds[0].circuitOpenUntil == 0
    ensures var last := clouds[|polls|];
            && last.failures == UnusableSince(polls) && (last.circuitOpenUntil != 0 ==> last.failures >= 3)
            && (polls != [] && last.failures >= 3 && polls[|polls| - 1].outcome == Unusable && polls[|polls| - 1].suspect ==>
                  last.circuitOpenUntil == polls[|polls| - 1].now + 300)
  {
    if polls != [] {
      var n := |polls| - 1;
      OpensAfterThreeFailures(clouds[..n + 1], polls[..n]);
      assert CircuitStep(clouds[n], clouds[n + 1], polls[n].outcome, polls[n].successes, polls[n].suspect, polls[n].now);
    }
  }

  /** The local pause after a result; `previous` is the snapshot before it, `recovers` that the path has a recovery of its own. */
  function PauseAfter(pauses: map<Path, int>, r: Result, previous: Option<Snapshot>, recovers: bool, now: int): (after: map<Path, int>)
    ensures forall p :: p != r.path ==> (p in after <==> p in pauses) && (p in after ==> after[p] == pauses[p])
    ensures r.IsOk() ==> r.path !in after
  {
    if r.IsOk() then pauses - {r.path}
    else if previous.Some? then
      if r.status == Some(404) then pauses - {r.path}
      else if r.status == Some(403) && previous.value.failures + 1 >= FORBIDDEN_PAUSE_THRESHOLD then pauses[r.path := now + FORBIDDEN_PAUSE]
      else if r.status == Some(504) then pauses[r.path := now + GATEWAY_TIMEOUT_PAUSE]
      else pauses
    else if r.status == Some(404) && recovers then pauses - {r.path}
    else if r.status == Some(403) then pauses[r.path := now + FORBIDDEN_PAUSE]
    else if r.status == Some(404) then pauses[r.path := now + NOT_FOUND_PAUSE]
    else pauses
  }

  // When a path is paused after a result: not if it could be read; a day after a 403, at the second one in a row where a
  // value is known; a quarter of an hour after a 504 of a known value; and a day after a 404 where neither a value nor
  // another recovery is known. A 404 ends the pause of any other path.
  lemma PausedExactly(pauses: map<Path, int>, r: Result, previous: Option<Snapshot>, recovers: bool, now: int, at: int)
    ensures Paused(PauseAfter(pauses, r, previous, recovers, now), r.path, at) <==>
              if r.value.Some? then false
              else if r.status == Some(403) && (previous.None? || previous.value.failures >= 1) then at < now + 86400
              else if r.status == Some(404) then previous.None? && !recovers && at < now + 86400
              else if r.status == Some(504) && previous.Some? then at < now + 900
              else Paused(pauses, r.path, at)
    ensures forall p :: p != r.path ==> (Paused(PauseAfter(pauses, r, previous, recovers, now), p, at) <==> Paused(pauses, p, at))
  {
  }

  datatype BulkReply = Items(results: seq<Result>) | AuthenticationReply | RateLimitedReply(retryAfter: Option<int>)
                     | FailedReply(category: string)

  datatype SingleReply =
    | FoundReply(value: Value) | SingleAuthentication | SingleRateLimited(retryAfter: Option<int>, at: int)
    | StatusReply(status: int, category: string) | SingleFailed

  /** A request with its reply. */
  datatype Event = Bulk(paths: seq<Path>, reply: BulkReply) | Single(path: Path, single: SingleReply)

  /** The bulk requests among the events. */
  function RequestsIn(events: seq<Event>): seq<seq<Path>> {
    if events == [] then []
    else
      var last := events[|events| - 1];
      RequestsIn(events[..|events| - 1]) + if last.Bulk? then [last.paths] else []
  }

  /** What one reply records: a request that failed as a whole fails each of its paths. */
  function AttemptsIn(e: Event): seq<Attempt> {
    match e
    case Bulk(_, Items(results)) => From(results, FromBatch)
    case Bulk(paths, RateLimitedReply(_)) => From(Alike(paths, Some(429), "http_429"), FromBatch)
    case Bulk(paths, FailedReply(category)) => From(Alike(paths, None, category), FromBatch)
    case Single(p, FoundReply(value)) => [Attempt(Result(p, Some(200), Some(value), false, ""), FromFallback)]
    case Single(p, StatusReply(status, category)) => [Attempt(Result(p, Some(status), None, false, category), FromFallback)]
    case _ => []
  }

  function AttemptsOf(events: seq<Event>): seq<Attempt> {
    if events == [] then [] else AttemptsOf(events[..|events| - 1]) + AttemptsIn(events[|events| - 1])
  }

  /** The requests and the attempts that the events amount to. */
  ghost predicate Tells(events: seq<Event>, requests: seq<seq<Path>>, attempts: seq<Attempt>) {
    requests == RequestsIn(events) && attempts == AttemptsOf(events)
  }

  lemma {:induction false} RequestsJoin(a: seq<Event>, b: seq<Event>)
    ensures RequestsIn(a + b) == RequestsIn(a) + RequestsIn(b)
  {
    if b == [] {
      assert a + b == a;
    } else {
      assert (a + b)[..|a + b| - 1] == a + b[..|b| - 1];
      RequestsJoin(a, b[..|b| - 1]);
    }
  }

  lemma {:induction false} AttemptsJoin(a: seq<Event>, b: seq<Event>)
    ensures AttemptsOf(a + b) == AttemptsOf(a) + AttemptsOf(b)
  {
    if b == [] {
      assert a + b == a;
    } else {
      var front, last := b[..|b| - 1], AttemptsIn(b[|b| - 1]);
      assert (a + b)[..|a + b| - 1] == a + front;
      AttemptsJoin(a, front);
      Associate(AttemptsOf(a), AttemptsOf(front), last);
    }
  }

  lemma Associate<T>(a: seq<T>, b: seq<T>, c: seq<T>)
    ensures a + b + c == a + (b + c)
  {
  }

  lemma TellsTogether(a: seq<Event>, ra: seq<seq<Path>>, aa: seq<Attempt>, b: seq<Event>, rb: seq<seq<Path>>, ab: seq<Attempt>)
    requires Tells(a, ra, aa) && Tells(b, rb, ab)
    ensures Tells(a + b, ra + rb, aa + ab)
  {
    RequestsJoin(a, b);
    AttemptsJoin(a, b);
  }

  lemma TellsNothing()
    ensures Tells([], [], [])
  {
  }

  lemma TellsOne(e: Event)
    ensures Tells([e], if e.Bulk? then [e.paths] else [], AttemptsIn(e))
  {
    assert [e][..0] == [] && RequestsIn([]) == [] && AttemptsOf([]) == [];
  }

  /** What the individual reads among the events recorded. */
  ghost predicate Gives(events: seq<Event>, results: seq<Result>) { Tells(events, [], From(results, FromFallback)) }

  // A single read that found or refused something records it; any other records nothing.
  lemma GivesNext(events: seq<Event>, results: seq<Result>, p: Path, reply: SingleReply)
    requires Gives(events, results)
    ensures Gives(events + [Single(p, reply)], results + Recorded(p, reply))
  {
    var more := Recorded(p, reply);
    assert From(more, FromFallback) == AttemptsIn(Single(p, reply));
    TellsOne(Single(p, reply));
    TellsTogether(events, [], From(results, FromFallback), [Single(p, reply)], [], AttemptsIn(Single(p, reply)));
    FromJoins(results, more, FromFallback);
  }

  lemma GivesNothing()
    ensures Gives([], [])
  {
    TellsNothing();
    assert From([], FromFallback) == [];
  }

  lemma FromJoins(a: seq<Result>, b: seq<Result>, source: Origin)
    ensures From(a + b, source) == From(a, source) + From(b, source)
  {
  }

  /** What an individual read adds to the results. */
  function Recorded(p: Path, reply: SingleReply): seq<Result> {
    match reply
    case FoundReply(value) => [Result(p, Some(200), Some(value), false, "")]
    case StatusReply(status, category) => [Result(p, Some(status), None, false, category)]
    case _ => []
  }

  predicate Stops(reply: SingleReply) { reply.SingleAuthentication? || reply.SingleRateLimited? }

  /** Individual reads of these paths, in order, up to the first one that is refused. */
  ghost predicate ReadsOf(events: seq<Event>, paths: seq<Path>) {
    && |events| <= |paths| && (forall i :: 0 <= i < |events| ==> events[i].Single? && events[i].path == paths[i])
    && (forall i :: 0 <= i < |events| - 1 ==> !Stops(events[i].single))
    && (|events| < |paths| ==> events != [] && Stops(events[|events| - 1].single))
  }

  /** The last request was refused by a rate limit. */
  ghost predicate RefusedLast(events: seq<Event>) {
    events != [] && events[|events| - 1].Single? && events[|events| - 1].single.SingleRateLimited?
  }

  /** A bulk reply that puts the whole gateway in doubt. */
  ghost predicate SuspectAt(events: seq<Event>, k: int) {
    && 0 <= k < |events| && events[k].Bulk?
    && (events[k].reply.FailedReply? || (events[k].reply.Items? && AllServerErrors(events[k].reply.results) && !RefusedLast(events)))
  }

  /** A bulk request that has to be repeated as a whole. */
  ghost predicate InterruptsAt(events: seq<Event>, k: int) {
    SuspectAt(events, k)
    || (0 <= k < |events| && events[k].Bulk?
        && (events[k].reply.RateLimitedReply? || (events[k].reply.Items? && AnyStatus(events[k].reply.results, 429))))
  }

  /** A bulk request that does not count as usable. */
  ghost predicate FailsAt(events: seq<Event>, k: int) {
    InterruptsAt(events, k)
    || (0 <= k < |events| && events[k].Bulk? && events[k].reply.Items? && AllServerErrors(events[k].reply.results))
  }

  /** Authentication was lost at the last request. */
  ghost predicate LosesAuth(events: seq<Event>) {
    events != []
    && var last := events[|events| - 1]; if last.Single? then last.single.SingleAuthentication? else last.reply.AuthenticationReply?
  }

  ghost predicate Suspects(events: seq<Event>) { exists k :: SuspectAt(events, k) }

  ghost predicate Interrupts(events: seq<Event>, p: Path) { exists k :: InterruptsAt(events, k) && p in events[k].paths }

  ghost function InterruptedIn(events: seq<Event>): set<Path> {
    set k, p | 0 <= k < |events| && InterruptsAt(events, k) && p in events[k].paths :: p
  }

  ghost predicate Fails(events: seq<Event>) { RefusedLast(events) || exists k :: FailsAt(events, k) }

  /** The tallies of a cycle say what its replies said. */
  ghost predicate Tallies(g: Progress, events: seq<Event>) {
    && (g.gatewayFailure <==> Suspects(events)) && (g.failed > 0 <==> Fails(events))
    && forall p :: p in g.interrupted <==> Interrupts(events, p)
  }

  /** The cycle goes on after these events. */
  ghost predicate GoesOn(events: seq<Event>) {
    && !RefusedLast(events)
    && forall k :: 0 <= k < |events| && events[k].Bulk? && events[k].reply.Items? ==> !AllServerErrors(events[k].reply.results)
  }

  ghost predicate IsLimited(attempts: seq<Attempt>) {
    exists i :: 0 <= i < |attempts| && attempts[i].result.status == Some(429)
  }

  /** The individual reads after a failed request say no more than the request did. */
  ghost predicate LeavesNothing(attempts: seq<Attempt>) {
    || IsLimited(attempts)
    || forall i :: 0 <= i < |attempts| ==>
         attempts[i].result.value.None? && attempts[i].result.status.Some? && attempts[i].result.status.value >= 500
  }

  lemma FallbackMeans(results: seq<Result>)
    ensures var attempts := From(results, FromFallback);
            && (IsLimited(attempts) <==> AnyStatus(results, 429))
            && (LeavesNothing(attempts) <==> results == [] || AnyStatus(results, 429) || AllServerErrors(results))
  {
    var attempts := From(results, FromFallback);
    assert forall i :: 0 <= i < |results| ==> attempts[i].result == results[i];
  }

  /** A bulk request with the individual reads that followed it. */
  ghost predicate IsChunk(events: seq<Event>, k: int, end: int) {
    && 0 <= k < end <= |events| && events[k].Bulk? && (end < |events| ==> events[end].Bulk?)
    && forall i :: k < i < end ==> events[i].Single?
  }

  /** These replies to the requests of one chunk end the cycle. */
  ghost predicate EndsCycle(chunk: seq<Event>) {
    LosesAuth(chunk) || RefusedLast(chunk)
    || (chunk != [] && chunk[0].Bulk?
        && match chunk[0].reply
           case AuthenticationReply => true
           case RateLimitedReply(_) => true
           case Items(results) => AnyStatus(results, 429) || AllServerErrors(results)
           case FailedReply(_) => LeavesNothing(AttemptsOf(chunk[1..])))
  }

  /** The cycle went on after each of its chunks but the last. */
  ghost predicate ReadsOn(events: seq<Event>) {
    forall k, end :: IsChunk(events, k, end) && end < |events| ==> !EndsCycle(events[k..end])
  }

  ghost predicate EndsNowhere(events: seq<Event>) {
    forall k, end :: IsChunk(events, k, end) ==> !EndsCycle(events[k..end])
  }

  /** The last chunk ended the cycle. */
  ghost predicate EndsEarly(events: seq<Event>) {
    exists k :: IsChunk(events, k, |events|) && EndsCycle(events[k..])
  }

  // One more chunk: the earlier ones are as they were.
  lemma ChunkNext(events: seq<Event>, more: seq<Event>, chunk: seq<Path>, reply: BulkReply)
    requires EndsNowhere(events) && IsChunkRead(more, chunk, reply)
    ensures ReadsOn(events + more) == true
    ensures EndsCycle(more) ==> EndsEarly(events + more) == true
    ensures !EndsCycle(more) ==> EndsNowhere(events + more) == true
    ensures forall k :: IsChunk(events + more, k, |events + more|) ==> (events + more)[k..] == more
  {
    var all, n := events + more, |events|;
    assert all[n] == more[0] && forall i :: n <= i < |all| ==> all[i] == more[i - n];
    assert all[n..] == more && IsChunk(all, n, |all|);
    forall k, end | IsChunk(all, k, end)
      ensures if k < n then IsChunk(events, k, end) && all[k..end] == events[k..end] else k == n && end == |all| && all[k..end] == more
    {
      if k < n {
        assert end <= n;
      } else {
        assert k == n;
        assert end == |all|;
      }
    }
  }

  lemma BackoffNext(before: Cloud, after: Cloud, events: seq<Event>, more: seq<Event>, chunk: seq<Path>, reply: BulkReply, now: int)
    requires IsChunkRead(more, chunk, reply) && after == BackedByChunk(before, more, now)
    requires forall k :: IsChunk(events + more, k, |events + more|) ==> (events + more)[k..] == more
    ensures BackoffStep(before, after, events + more, now) == true
  {
  }

  /** What the events of one chunk add to the tallies. */
  ghost predicate TalliesChunk(g: Progress, chunk: seq<Path>, events: seq<Event>, after: Progress) {
    && (after.gatewayFailure <==> g.gatewayFailure || SuspectAt(events, 0))
    && after.failed >= g.failed && (after.failed > g.failed <==> FailsAt(events, 0) || RefusedLast(events))
    && after.interrupted == g.interrupted + if InterruptsAt(events, 0) then Elements(chunk) else {}
  }

  lemma TalliesNext(g: Progress, events: seq<Event>, chunk: seq<Path>, reply: BulkReply, more: seq<Event>, after: Progress)
    requires Tallies(g, events) && GoesOn(events) && IsChunkRead(more, chunk, reply) && TalliesChunk(g, chunk, more, after)
    ensures Tallies(after, events + more) == true
  {
    var all, n := events + more, |events|;
    assert all[|all| - 1] == more[|more| - 1];
    assert RefusedLast(all) <==> RefusedLast(more);
    forall k ensures SuspectAt(all, k) <==> SuspectAt(events, k) || (k == n && SuspectAt(more, 0)) {
      assert n <= k < |all| ==> all[k] == more[k - n];
    }
    forall k ensures InterruptsAt(all, k) <==> InterruptsAt(events, k) || (k == n && InterruptsAt(more, 0)) {
      assert n <= k < |all| ==> all[k] == more[k - n];
    }
    forall k ensures FailsAt(all, k) <==> FailsAt(events, k) || (k == n && FailsAt(more, 0)) {
      assert n <= k < |all| ==> all[k] == more[k - n];
    }
    SuspectsNext(all, events, more);
    FailsNext(all, events, more);
    forall p ensures Interrupts(all, p) <==> Interrupts(events, p) || (InterruptsAt(more, 0) && p in chunk) {
      if InterruptsAt(more, 0) && p in chunk {
        assert InterruptsAt(all, n) && all[n] == more[0];
      }
      if k :| InterruptsAt(events, k) && p in events[k].paths {
        assert InterruptsAt(all, k) && all[k] == events[k];
      }
    }
  }

  lemma FailedTallies(g: Progress, chunk: seq<Path>, category: string, events: seq<Event>, after: Progress)
    requires after.gatewayFailure && after.failed > g.failed && after.interrupted == g.interrupted + Elements(chunk)
    ensures TalliesChunk(g, chunk, [Bulk(chunk, FailedReply(category))] + events, after) == true
  {
    var all := [Bulk(chunk, FailedReply(category))] + events;
    assert all[0] == Bulk(chunk, FailedReply(category)) && SuspectAt(all, 0);
  }

  lemma ItemsTallies(g: Progress, chunk: seq<Path>, results: seq<Result>, events: seq<Event>, after: Progress, backs: bool)
    requires backs <==> RefusedLast(events)
    requires after.gatewayFailure == (g.gatewayFailure || (!AnyStatus(results, 429) && !backs && AllServerErrors(results)))
    requires AnyStatus(results, 429) ==> events == []
    requires after.failed == g.failed + if AnyStatus(results, 429) || backs || AllServerErrors(results) then 1 else 0
    requires after.interrupted == g.interrupted + if AnyStatus(results, 429) || (!backs && AllServerErrors(results)) then Elements(chunk) else {}
    ensures TalliesChunk(g, chunk, [Bulk(chunk, Items(results))] + events, after) == true
  {
    var all := [Bulk(chunk, Items(results))] + events;
    assert all[0] == Bulk(chunk, Items(results));
    RefusedAfter(Bulk(chunk, Items(results)), events);
  }

  lemma ChunkJoins(g: Progress, events: seq<Event>, chunk: seq<Path>, answer: BulkReply, more: seq<Event>, after: Progress, verdict: Verdict)
    requires Tallies(g, events) == true && GoesOn(events) == true && IsChunkRead(more, chunk, answer) == true
    requires (verdict == Abort <==> LosesAuth(more)) && (verdict == Continue ==> GoesOn(more) == true)
    requires verdict != Abort ==> TalliesChunk(g, chunk, more, after) == true
    ensures LosesAuth(events + more) <==> verdict == Abort
    ensures verdict != Abort ==> Tallies(after, events + more) == true
    ensures verdict == Continue ==> GoesOn(events + more) == true
  {
    assert (events + more)[|events + more| - 1] == more[|more| - 1];
    if verdict != Abort {
      TalliesNext(g, events, chunk, answer, more, after);
    }
    if verdict == Continue {
      GoesOnNext(events, more, chunk, answer);
    }
  }

  lemma RefusedAfter(e: Event, events: seq<Event>)
    requires e.Bulk?
    ensures (RefusedLast([e] + events) <==> RefusedLast(events))
    ensures LosesAuth([e] + events) <==> if events == [] then e.reply.AuthenticationReply? else LosesAuth(events)
  {
    assert events != [] ==> ([e] + events)[|events|] == events[|events| - 1];
  }

  lemma ChunkEnds(chunk: seq<Path>, reply: BulkReply, more: seq<Event>)
    requires forall i :: 0 <= i < |more| ==> more[i].Single?
    ensures var all := [Bulk(chunk, reply)] + more;
            && (LosesAuth(all) <==> if more == [] then reply.AuthenticationReply? else LosesAuth(more))
            && (!RefusedLast(more) && (reply.Items? ==> !AllServerErrors(reply.results)) ==> GoesOn(all) == true)
            && (more == [] ==> all == [Bulk(chunk, reply)])
  {
    RefusedAfter(Bulk(chunk, reply), more);
  }

  lemma ChunkMeans(before: Cloud, chunk: seq<Path>, reply: BulkReply, more: seq<Event>, extra: seq<Attempt>, now: int)
    requires Tells(more, [], extra) && forall i :: 0 <= i < |more| ==> more[i].Single?
    ensures var all := [Bulk(chunk, reply)] + more;
            && (EndsCycle(all) <==>
                  LosesAuth(all) || RefusedLast(more) || reply.AuthenticationReply? || reply.RateLimitedReply?
                  || (reply.Items? && (AnyStatus(reply.results, 429) || AllServerErrors(reply.results)))
                  || (reply.FailedReply? && LeavesNothing(extra)))
            && BackedByChunk(before, all, now) ==
                 match reply
                 case AuthenticationReply => before
                 case RateLimitedReply(retryAfter) => before.RateLimited(retryAfter, now)
                 case Items(results) => if AnyStatus(results, 429) then before.RateLimited(None, now) else Backed(before, more, now)
                 case FailedReply(_) =>
                   if !LosesAuth(more) && IsLimited(extra) then Backed(before, more, now).RateLimited(None, now) else Backed(before, more, now)
  {
    var all := [Bulk(chunk, reply)] + more;
    assert all[0] == Bulk(chunk, reply) && all[1..] == more;
    RefusedAfter(Bulk(chunk, reply), more);
  }

  lemma SuspectsNext(all: seq<Event>, events: seq<Event>, more: seq<Event>)
    requires forall k :: SuspectAt(all, k) <==> SuspectAt(events, k) || (k == |events| && SuspectAt(more, 0))
    ensures Suspects(all) <==> Suspects(events) || SuspectAt(more, 0)
  {
    assert SuspectAt(more, 0) ==> SuspectAt(all, |events|);
  }

  lemma FailsNext(all: seq<Event>, events: seq<Event>, more: seq<Event>)
    requires forall k :: FailsAt(all, k) <==> FailsAt(events, k) || (k == |events| && FailsAt(more, 0))
    requires !RefusedLast(events) && (RefusedLast(all) <==> RefusedLast(more))
    ensures Fails(all) <==> Fails(events) || FailsAt(more, 0) || RefusedLast(more)
  {
    assert FailsAt(more, 0) ==> FailsAt(all, |events|);
  }

  lemma GoesOnNext(events: seq<Event>, more: seq<Event>, chunk: seq<Path>, reply: BulkReply)
    requires GoesOn(events) && GoesOn(more) && IsChunkRead(more, chunk, reply)
    ensures GoesOn(events + more) == true
  {
    var all := events + more;
    assert all[|all| - 1] == more[|more| - 1];
    assert forall k :: |events| <= k < |all| ==> all[k] == more[k - |events|];
  }

  /** What a cycle accumulates. */
  datatype Progress = Progress(snapshots: map<Path, Snapshot>, attempts: seq<Attempt>, failed: nat, gatewayFailure: bool,
                               interrupted: set<Path>)

  datatype Verdict = Continue | Break | Abort

  datatype Outcome = Refused | Idle | AuthenticationFailed | Unusable | Refreshed

  predicate AnyStatus(results: seq<Result>, status: int) {
    exists i :: 0 <= i < |results| && results[i].status == Some(status)
  }

  predicate AllServerErrors(results: seq<Result>) {
    results != [] && forall i :: 0 <= i < |results| ==>
      results[i].value.None? && results[i].status.Some? && results[i].status.value >= 500
  }

  // What the results of a request say as a whole: one is rate-limited, say, or the gateway failed for every path.
  lemma ResultsMean(results: seq<Result>, status: int)
    ensures AnyStatus(results, status) <==> exists r :: r in results && r.status == Some(status)
    ensures AllServerErrors(results) <==>
              (exists r :: r in results) && forall r :: r in results ==> r.value == None && exists s :: s >= 500 && r.status == Some(s)
  {
    if r :| r in results && r.status == Some(status) {
      var i :| 0 <= i < |results| && results[i] == r;
    }
    assert results != [] ==> results[0] in results;
    forall i | 0 <= i < |results| && AllServerErrors(results) ensures results[i].status == Some(results[i].status.value) {
    }
    assert forall i :: 0 <= i < |results| ==> results[i] in results;
  }

  ghost predicate Within(results: seq<Result>, chunk: seq<Path>) {
    forall i :: 0 <= i < |results| ==> results[i].path in chunk
  }

  /** The same outcome for every path of a chunk whose request failed as a whole. */
  function Alike(chunk: seq<Path>, status: Option<int>, category: string): (r: seq<Result>)
    ensures |r| == |chunk| && Within(r, chunk)
    ensures forall i :: 0 <= i < |r| ==> r[i].path == chunk[i] && r[i].status == status && r[i].category == category && !r[i].malformed
    ensures forall i :: 0 <= i < |r| ==> r[i].value == None
  {
    seq(|chunk|, i requires 0 <= i < |chunk| => Result(chunk[i], status, None, false, category))
  }

  function From(results: seq<Result>, source: Origin): (r: seq<Attempt>)
    ensures |r| == |results| && forall i :: 0 <= i < |results| ==> r[i] == Attempt(results[i], source)
  {
    seq(|results|, i requires 0 <= i < |results| => Attempt(results[i], source))
  }

  /** The snapshots of a cycle are what its attempts, in order, make of the ones it started from. */
  ghost predicate Explained(g: Progress, start: map<Path, Snapshot>, now: int) {
    g.snapshots == ApplyAll(start, MutationsOf(g.attempts, now))
  }

  lemma RecordOne(g: Progress, start: map<Path, Snapshot>, now: int, a: Attempt)
    requires Explained(g, start, now)
    ensures Explained(g.(snapshots := Apply(g.snapshots, MutationOf(a, now)), attempts := g.attempts + [a]), start, now)
  {
    var longer := MutationsOf(g.attempts + [a], now);
    assert longer == MutationsOf(g.attempts, now) + [MutationOf(a, now)];
    assert longer[..|longer| - 1] == MutationsOf(g.attempts, now);
  }

  /** The pauses after the results of one request, entered one after the other. */
  ghost function PausesAll(pauses: map<Path, int>, before: map<Path, Snapshot>, results: seq<Result>, source: Origin, recovering: set<Path>,
                           now: int): map<Path, int>
  {
    if results == [] then pauses
    else
      var front, last := results[..|results| - 1], results[|results| - 1];
      var seen := Applied(before, From(front, source), now);
      PauseAfter(PausesAll(pauses, before, front, source, recovering, now), last,
                 if last.path in seen then Some(seen[last.path]) else None, last.path in recovering, now)
  }

  /** The first results of a request were entered: these are the snapshots and the pauses. */
  ghost predicate Enters(snapshots: map<Path, Snapshot>, pauses: map<Path, int>, before: map<Path, Snapshot>, paused: map<Path, int>,
                         results: seq<Result>, source: Origin, recovering: set<Path>, now: int) {
    && snapshots == Applied(before, From(results, source), now)
    && pauses == PausesAll(paused, before, results, source, recovering, now)
  }

  lemma EntersNext(snapshots: map<Path, Snapshot>, pauses: map<Path, int>, before: map<Path, Snapshot>, paused: map<Path, int>,
                   results: seq<Result>, i: nat, source: Origin, recovering: set<Path>, now: int, next: map<Path, Snapshot>,
                   after: map<Path, int>)
    requires i < |results| && Enters(snapshots, pauses, before, paused, results[..i], source, recovering, now)
    requires next == Apply(snapshots, MutationOf(Attempt(results[i], source), now))
    requires after == PauseAfter(pauses, results[i], if results[i].path in snapshots then Some(snapshots[results[i].path]) else None,
                                 results[i].path in recovering, now)
    ensures Enters(next, after, before, paused, results[..i + 1], source, recovering, now) == true
  {
    var longer := From(results[..i + 1], source);
    assert results[..i + 1][..i] == results[..i];
    assert longer[..i] == From(results[..i], source) && longer[i] == Attempt(results[i], source);
    AppliedNext(before, longer, now);
  }

  /** A missing manual setpoint of a circuit that is in manual mode by a fresh snapshot is read again without a pause. */
  ghost predicate IsSpared(p: Path, results: seq<Result>, manual: map<Path, Path>, snapshots: map<Path, Snapshot>) {
    && p in manual && manual[p] in snapshots
    && (var mode := snapshots[manual[p]]; mode.available && mode.freshness == Fresh && mode.resource.text == "manual")
    && exists i :: 0 <= i < |results| && results[i].path == p && results[i].status == Some(404)
  }

  ghost predicate Spares(pauses: map<Path, int>, before: map<Path, int>, results: seq<Result>, manual: map<Path, Path>,
                         snapshots: map<Path, Snapshot>) {
    && (forall p :: p in pauses <==> p in before && !IsSpared(p, results, manual, snapshots))
    && forall p :: p in pauses ==> pauses[p] == before[p]
  }

  lemma SparesNext(pauses: map<Path, int>, before: map<Path, int>, results: seq<Result>, i: nat, manual: map<Path, Path>,
                   snapshots: map<Path, Snapshot>, after: map<Path, int>)
    requires i < |results| && Spares(pauses, before, results[..i], manual, snapshots)
    requires after == if results[i].status == Some(404) && results[i].path in manual && ManualActive(manual[results[i].path], snapshots)
                      then pauses - {results[i].path} else pauses
    ensures Spares(after, before, results[..i + 1], manual, snapshots) == true
  {
    assert results[..i + 1] == results[..i] + [results[i]];
    forall p ensures IsSpared(p, results[..i + 1], manual, snapshots) <==>
                       IsSpared(p, results[..i], manual, snapshots)
                       || (p == results[i].path && results[i].status == Some(404) && p in manual && ManualActive(manual[p], snapshots))
    {
      SparedNext(p, results[..i], results[i], manual, snapshots);
    }
  }

  lemma SparedNext(p: Path, front: seq<Result>, last: Result, manual: map<Path, Path>, snapshots: map<Path, Snapshot>)
    ensures IsSpared(p, front + [last], manual, snapshots) <==>
              IsSpared(p, front, manual, snapshots)
              || (p == last.path && last.status == Some(404) && p in manual && ManualActive(manual[p], snapshots))
  {
    var all := front + [last];
    assert all[|front|] == last;
    if i :| 0 <= i < |front| && front[i].path == p && front[i].status == Some(404) {
      assert all[i] == front[i];
    }
  }

  /** What the results of one request make of the pauses; `manual` are the setpoints under recovery afterwards. */
  ghost predicate PausesBy(pauses: map<Path, int>, before: map<Path, int>, shown: map<Path, Snapshot>, results: seq<Result>, source: Origin,
                           recovering: set<Path>, now: int, manual: map<Path, Path>, snapshots: map<Path, Snapshot>) {
    && snapshots == Applied(shown, From(results, source), now)
    && Spares(pauses, PausesAll(before, shown, results, source, recovering, now), results, manual, snapshots)
  }

  class Coordinator {
    const groups: seq<Group>
    const intervals: map<Group, int>
    // Start counters that have an entity: while such a path is missing, it is not paused.
    const registered: set<Path>
    const isStartCounter: Path -> bool
    const groupOf: Value -> Group
    var pathsByGroup: map<Group, seq<Path>>
    // Missing manual setpoints under recovery, each with the mode it belongs to.
    var manual: map<Path, Path>
    var data: map<Path, Snapshot>
    var pauses: map<Path, int>
    var deferred: seq<Path>
    var next: map<Group, int>
    var cloud: Cloud
    var mainCycleFailed: bool
    ghost var log: seq<Event>

    ghost function CurrentView(): View
      reads this
    {
      View(deferred, next, pauses)
    }

    constructor (groups: seq<Group>, intervals: map<Group, int>, registered: set<Path>, isStartCounter: Path -> bool,
                 groupOf: Value -> Group)
      requires forall g :: g in groups ==> g in intervals
      ensures this.groups == groups && this.intervals == intervals && this.registered == registered
      ensures data == map[] && pauses == map[] && deferred == [] && next == map[] && cloud == Cloud(0, 0, 0, 0) && log == []
    {
      this.groups, this.intervals, this.registered := groups, intervals, registered;
      this.isStartCounter, this.groupOf := isStartCounter, groupOf;
      pathsByGroup, manual, data, pauses, deferred, next := map[], map[], map[], map[], [], map[];
      cloud, mainCycleFailed, log := Cloud(0, 0, 0, 0), false, [];
    }

    /** Enters the results of one request: snapshots, pauses and groups, one path at a time. */
    method ApplyResults(g: Progress, results: seq<Result>, source: Origin, now: int, ghost start: map<Path, Snapshot>,
                        ghost chunk: seq<Path>) returns (after: Progress)
      requires Explained(g, start, now) == true && Within(results, chunk)
      modifies `pauses, `manual, `pathsByGroup
      ensures Explained(after, start, now) == true && after.attempts == g.attempts + From(results, source)
      ensures after == g.(snapshots := after.snapshots, attempts := after.attempts)
      ensures PausesOnly(old(pauses), pauses, Elements(chunk)) == true
      ensures PausesBy(pauses, old(pauses), g.snapshots, results, source, old(manual).Keys + registered, now, manual, after.snapshots) == true
    {
      after := EnterAll(g, results, source, now, start, chunk);
      RecoverManual(results, after.snapshots);
    }

    method EnterAll(g: Progress, results: seq<Result>, source: Origin, now: int, ghost start: map<Path, Snapshot>, ghost chunk: seq<Path>)
      returns (after: Progress)
      requires Explained(g, start, now) == true && Within(results, chunk)
      modifies `pauses, `pathsByGroup
      ensures Explained(after, start, now) == true && after.attempts == g.attempts + From(results, source)
      ensures after == g.(snapshots := after.snapshots, attempts := after.attempts)
      ensures PausesOnly(old(pauses), pauses, Elements(chunk)) == true
      ensures Enters(after.snapshots, pauses, g.snapshots, old(pauses), results, source, manual.Keys + registered, now) == true
    {
      after := g;
      for i := 0 to |results|
        invariant Explained(after, start, now) == true && after.attempts == g.attempts + From(results[..i], source)
        invariant after == g.(snapshots := after.snapshots, attempts := after.attempts)
        invariant PausesOnly(old(pauses), pauses, Elements(chunk)) == true
        invariant Enters(after.snapshots, pauses, g.snapshots, old(pauses), results[..i], source, manual.Keys + registered, now) == true
      {
        after := EnterNext(after, results, i, source, now, start, chunk, g, old(pauses));
      }
      assert results[..|results|] == results;
    }

    method EnterNext(g: Progress, results: seq<Result>, i: nat, source: Origin, now: int, ghost start: map<Path, Snapshot>,
                     ghost chunk: seq<Path>, ghost first: Progress, ghost paused: map<Path, int>) returns (after: Progress)
      requires i < |results| && Explained(g, start, now) == true && Within(results, chunk) == true
      requires g.attempts == first.attempts + From(results[..i], source)
      requires PausesOnly(paused, pauses, Elements(chunk)) == true
      requires Enters(g.snapshots, pauses, first.snapshots, paused, results[..i], source, manual.Keys + registered, now) == true
      modifies `pauses, `pathsByGroup
      ensures Explained(after, start, now) == true && after.attempts == first.attempts + From(results[..i + 1], source)
      ensures after == g.(snapshots := after.snapshots, attempts := after.attempts)
      ensures PausesOnly(paused, pauses, Elements(chunk)) == true
      ensures Enters(after.snapshots, pauses, first.snapshots, paused, results[..i + 1], source, manual.Keys + registered, now) == true
    {
      ghost var between, shown := pauses, g.snapshots;
      ApplyOneWithin(results, i, chunk, source);
      after := ApplyOne(g, results[i], source, now, start);
      PausesTwice(paused, between, pauses, Elements(chunk));
      EntersNext(shown, between, first.snapshots, paused, results, i, source, manual.Keys + registered, now, after.snapshots, pauses);
    }

    method ApplyOne(g: Progress, r: Result, source: Origin, now: int, ghost start: map<Path, Snapshot>) returns (after: Progress)
      requires Explained(g, start, now) == true
      modifies `pauses, `pathsByGroup
      ensures Explained(after, start, now) == true && after.attempts == g.attempts + [Attempt(r, source)]
      ensures after == g.(snapshots := after.snapshots, attempts := after.attempts)
      ensures after.snapshots == Apply(g.snapshots, MutationOf(Attempt(r, source), now))
      ensures pauses == PauseAfter(old(pauses), r, if r.path in g.snapshots then Some(g.snapshots[r.path]) else None,
                                   r.path in manual || r.path in registered, now)
      ensures r.value.None? || !(r.path in manual || isStartCounter(r.path)) ==> pathsByGroup == old(pathsByGroup)
      ensures r.value.Some? && (r.path in manual || isStartCounter(r.path)) && groupOf(r.value.value) in groups ==>
                && r.path in PathsOf(pathsByGroup, groupOf(r.value.value))
                && JoinsOnly(old(pathsByGroup), pathsByGroup, r.path, groupOf(r.value.value)) == true
      ensures r.value.Some? && groupOf(r.value.value) !in groups ==>
                forall h :: PathsOf(pathsByGroup, h) == PathsOf(old(pathsByGroup), h)
    {
      pauses := PauseAfter(pauses, r, if r.path in g.snapshots then Some(g.snapshots[r.path]) else None,
                           r.path in manual || r.path in registered, now);
      if r.value.Some? && (r.path in manual || isStartCounter(r.path)) {
        JoinGroup(r.path, groupOf(r.value.value));
      }
      RecordOne(g, start, now, Attempt(r, source));
      after := g.(snapshots := Apply(g.snapshots, MutationOf(Attempt(r, source), now)), attempts := g.attempts + [Attempt(r, source)]);
    }

    // The path is added to its group, at the end, unless it is there.
    static ghost predicate JoinsOnly(before: map<Group, seq<Path>>, after: map<Group, seq<Path>>, p: Path, g: Group) {
      && (forall h :: h != g ==> PathsOf(after, h) == PathsOf(before, h))
      && PathsOf(after, g) == PathsOf(before, g) + if p in PathsOf(before, g) then [] else [p]
    }

    // A value first seen by a targeted read joins its regular group, once.
    method JoinGroup(p: Path, g: Group)
      modifies `pathsByGroup
      ensures forall h :: h != g ==> PathsOf(pathsByGroup, h) == PathsOf(old(pathsByGroup), h)
      ensures PathsOf(pathsByGroup, g) == PathsOf(old(pathsByGroup), g)
                                          + if g in groups && p !in PathsOf(old(pathsByGroup), g) then [p] else []
    {
      if g in groups && p !in PathsOf(pathsByGroup, g) {
        pathsByGroup := pathsByGroup[g := PathsOf(pathsByGroup, g) + [p]];
      }
    }

    // Which manual setpoints are under recovery now is decided elsewhere; an absent one on a manual circuit is not paused.
    method RecoverManual(results: seq<Result>, snapshots: map<Path, Snapshot>)
      modifies `pauses, `manual
      ensures Spares(pauses, old(pauses), results, manual, snapshots)
    {
      manual := *;
      for i := 0 to |results|
        invariant Spares(pauses, old(pauses), results[..i], manual, snapshots) == true
      {
        ghost var paused := pauses;
        var p := results[i].path;
        if results[i].status == Some(404) && p in manual && ManualActive(manual[p], snapshots) {
          pauses := pauses - {p};
        }
        SparesNext(paused, old(pauses), results, i, manual, snapshots, pauses);
      }
      assert results[..|results|] == results;
    }

    // The cloud answers one path arbitrarily.
    method Get(p: Path) returns (reply: SingleReply)
      modifies `log
      ensures log == old(log) + [Single(p, reply)]
    {
      reply := *;
      log := log + [Single(p, reply)];
    }

    // The cloud answers a bulk request arbitrarily: one result for each requested path, in order, or a failure as a whole.
    method BulkRead(chunk: seq<Path>) returns (reply: BulkReply)
      modifies `log
      ensures log == old(log) + [Bulk(chunk, reply)]
      ensures reply.Items? ==> |reply.results| == |chunk| && forall i :: 0 <= i < |chunk| ==> reply.results[i].path == chunk[i]
    {
      reply := *;
      if reply.Items? && (|reply.results| != |chunk| || exists i :: 0 <= i < |chunk| && reply.results[i].path != chunk[i]) {
        reply := FailedReply("protocolerror");
      }
      log := log + [Bulk(chunk, reply)];
    }

    // Reads single paths until one read is refused: a rate limit starts the backoff, lost authentication ends the cycle.
    method SingleReads(paths: seq<Path>, now: int) returns (results: seq<Result>, abort: bool, ghost events: seq<Event>)
      modifies `cloud, `log
      ensures log == old(log) + events && IsReadOf(events, paths, results, abort) == true
      ensures Backs(old(cloud), cloud, events, now) == true
    {
      GivesNothing();
      results, abort, events := [], false, [];
      ghost var before := log;
      for i := 0 to |paths|
        invariant log == before + events && ReadSoFar(events, paths, i, results) == true
        invariant !abort && cloud == old(cloud)
      {
        var reply := Get(paths[i]);
        ReadOne(before, events, paths, i, results, reply);
        events, results := events + [Single(paths[i], reply)], results + Recorded(paths[i], reply);
        if Stops(reply) {
          abort := reply.SingleAuthentication?;
          if !abort {
            cloud := cloud.RateLimited(reply.retryAfter, Max(now, reply.at));
          }
          return;
        }
      }
      AllRead(events, paths, results);
    }

    // Reads again at most five of the recoverable items, essential ones first.
    method ItemFallback(results: seq<Result>, now: int, ghost chunk: seq<Path>)
      returns (recovered: seq<Result>, abort: bool, ghost events: seq<Event>)
      requires Within(results, chunk)
      modifies `cloud, `log
      ensures log == old(log) + events && FallbackReads(events, RecoverablePaths(results)) && (abort <==> LosesAuth(events))
      ensures ItemsReadAgain(events, results) == true
      ensures Gives(events, recovered) == true && Within(recovered, chunk)
      ensures Backs(old(cloud), cloud, events, now) == true
    {
      var broken := RecoverablePaths(results);
      RecoverableWithin(results, chunk);
      var wanted := Unique(Keep(PRIORITY_PATHS, Elements(broken)) + broken);
      var selected := wanted[..Min(MAX_FALLBACK_PATHS, |wanted|)];
      recovered, abort, events := SingleReads(selected, now);
      SelectsItems(broken, Keep(PRIORITY_PATHS, Elements(broken)), wanted, selected);
      FallbackIsBounded(events, selected, wanted, broken);
      WithinMore(recovered, selected, wanted, chunk);
    }

    // Reads at most five essential paths of a chunk whose request failed.
    method CoreFallback(chunk: seq<Path>, now: int) returns (results: seq<Result>, abort: bool, ghost events: seq<Event>)
      modifies `cloud, `log
      ensures log == old(log) + events && FallbackReads(events, PRIORITY_PATHS) && (abort <==> LosesAuth(events))
      ensures CoreReadAgain(events, chunk) == true
      ensures Gives(events, results) == true && Within(results, chunk)
      ensures Backs(old(cloud), cloud, events, now) == true
    {
      var prioritized := Keep(PRIORITY_PATHS, Elements(chunk));
      var selected := prioritized[..Min(MAX_FALLBACK_PATHS, |prioritized|)];
      results, abort, events := SingleReads(selected, now);
      SelectsCore(chunk, prioritized);
      FallbackIsBounded(events, selected, prioritized, PRIORITY_PATHS);
      WithinMore(results, selected, prioritized, chunk);
    }

    // What a chunk's replies mean for the rest of the cycle. Every early end counts as a failed chunk.
    method AfterRead(g: Progress, results: seq<Result>, chunk: seq<Path>, now: int) returns (after: Progress, verdict: Verdict)
      modifies `cloud
      ensures verdict == (if AnyStatus(results, 429) || now < old(cloud).backoffUntil || AllServerErrors(results) then Break else Continue)
      ensures after == g.(failed := after.failed, gatewayFailure := after.gatewayFailure, interrupted := after.interrupted)
      ensures after.failed == g.failed + if verdict == Break then 1 else 0
      ensures after.interrupted == g.interrupted + if AnyStatus(results, 429) || (now >= old(cloud).backoffUntil && AllServerErrors(results))
                                                   then Elements(chunk) else {}
      ensures after.gatewayFailure == (g.gatewayFailure || (!AnyStatus(results, 429) && now >= old(cloud).backoffUntil && AllServerErrors(results)))
      ensures cloud == if AnyStatus(results, 429) then old(cloud).RateLimited(None, now) else old(cloud)
    {
      if AnyStatus(results, 429) {
        cloud := cloud.RateLimited(None, now);
        return g.(interrupted := g.interrupted + Elements(chunk), failed := g.failed + 1), Break;
      }
      if now < cloud.backoffUntil {
        return g.(failed := g.failed + 1), Break;
      }
      if AllServerErrors(results) {
        return g.(interrupted := g.interrupted + Elements(chunk), failed := g.failed + 1, gatewayFailure := true), Break;
      }
      return g, Continue;
    }

    // Reads one chunk. The events are the bulk request and the individual reads that followed it.
    method ReadChunk(g: Progress, chunk: seq<Path>, now: int, ghost start: map<Path, Snapshot>)
      returns (after: Progress, verdict: Verdict, ghost answer: BulkReply, ghost events: seq<Event>, ghost recorded: seq<Attempt>)
      requires Explained(g, start, now) == true && now >= cloud.backoffUntil
      modifies `pauses, `manual, `pathsByGroup, `cloud, `log
      ensures log == old(log) + events && IsChunkRead(events, chunk, answer)
      ensures (verdict == Abort <==> LosesAuth(events)) && (verdict == Continue <==> !EndsCycle(events))
      ensures cloud == BackedByChunk(old(cloud), events, now)
      ensures verdict == Continue ==> GoesOn(events) == true
      ensures verdict != Abort ==> TalliesChunk(g, chunk, events, after) == true
      ensures ReadsAgain(answer, events[1..], chunk) == true
      ensures Tells(events, [chunk], recorded) == true
      ensures Explained(after, start, now) == true && (verdict != Abort ==> after.attempts == g.attempts + recorded)
      ensures after.failed >= g.failed && (verdict == Break ==> after.failed > g.failed)
      ensures PausesOnly(old(pauses), pauses, Elements(chunk)) == true
      ensures g.interrupted <= after.interrupted <= g.interrupted + Elements(chunk)
      ensures answer.AuthenticationReply? ==> verdict == Abort && after == g
      ensures answer.RateLimitedReply? ==>
                verdict == Break && Elements(chunk) <= after.interrupted && cloud == old(cloud).RateLimited(answer.retryAfter, now)
      ensures answer.FailedReply? ==> Elements(chunk) <= after.interrupted && after.gatewayFailure && after.failed > g.failed
      ensures answer.Items? && AnyStatus(answer.results, 429) ==>
                verdict == Break && Elements(chunk) <= after.interrupted && now < cloud.backoffUntil
      ensures answer.Items? && AllServerErrors(answer.results) ==> verdict != Continue
      ensures cloud.SameCircuit(old(cloud)) && (verdict == Continue ==> cloud == old(cloud) && now >= cloud.backoffUntil)
    {
      var reply := BulkRead(chunk);
      answer, events, recorded := reply, [Bulk(chunk, reply)], AttemptsIn(Bulk(chunk, reply));
      TellsNothing();
      ghost var more: seq<Event>, extra: seq<Attempt> := [], [];
      match reply {
        case AuthenticationReply =>
          after, verdict := g, Abort;
        case RateLimitedReply(retryAfter) =>
          after := UseRateLimit(g, chunk, retryAfter, now, start);
          verdict := Break;
        case FailedReply(category) =>
          after, verdict, more, extra := UseFailure(g, chunk, category, now, start);
        case Items(results) =>
          after, verdict, more, extra := UseItems(g, results, chunk, now, start);
      }
      ChunkEnds(chunk, reply, more);
      ChunkMeans(old(cloud), chunk, reply, more, extra, now);
      JoinsChunk(Bulk(chunk, reply), more, extra);
      Associate(g.attempts, recorded, extra);
      Associate(old(log), events, more);
      events, recorded := events + more, recorded + extra;
    }

    // A rate limit for the whole request: every path of the chunk failed, and the backoff starts.
    method UseRateLimit(g: Progress, chunk: seq<Path>, retryAfter: Option<int>, now: int, ghost start: map<Path, Snapshot>)
      returns (after: Progress)
      requires Explained(g, start, now) == true
      modifies `pauses, `manual, `pathsByGroup, `cloud
      ensures Explained(after, start, now) == true && after.failed == g.failed + 1
      ensures after.attempts == g.attempts + AttemptsIn(Bulk(chunk, RateLimitedReply(retryAfter)))
      ensures after.interrupted == g.interrupted + Elements(chunk) && cloud == old(cloud).RateLimited(retryAfter, now)
      ensures TalliesChunk(g, chunk, [Bulk(chunk, RateLimitedReply(retryAfter))], after) == true
      ensures PausesOnly(old(pauses), pauses, Elements(chunk)) == true
    {
      after := ApplyResults(g, Alike(chunk, Some(429), "http_429"), FromBatch, now, start, chunk);
      cloud := cloud.RateLimited(retryAfter, now);
      after := after.(interrupted := after.interrupted + Elements(chunk), failed := after.failed + 1);
    }

    // A request that failed as a whole: every path of the chunk failed, and only essential paths are tried again.
    method UseFailure(g: Progress, chunk: seq<Path>, category: string, now: int, ghost start: map<Path, Snapshot>)
      returns (after: Progress, verdict: Verdict, ghost events: seq<Event>, ghost extra: seq<Attempt>)
      requires Explained(g, start, now) == true && now >= cloud.backoffUntil
      modifies `pauses, `manual, `pathsByGroup, `cloud, `log
      ensures log == old(log) + events && FallbackReads(events, PRIORITY_PATHS)
      ensures CoreReadAgain(events, chunk) == true
      ensures verdict == (if LosesAuth(events) then Abort else if RefusedLast(events) || LeavesNothing(extra) then Break else Continue)
      ensures cloud == if !LosesAuth(events) && IsLimited(extra) then Backed(old(cloud), events, now).RateLimited(None, now)
                       else Backed(old(cloud), events, now)
      ensures verdict != Abort ==> TalliesChunk(g, chunk, [Bulk(chunk, FailedReply(category))] + events, after) == true
      ensures Explained(after, start, now) == true && after.failed > g.failed && after.gatewayFailure
      ensures PausesOnly(old(pauses), pauses, Elements(chunk)) == true
      ensures after.interrupted == g.interrupted + Elements(chunk)
      ensures Tells(events, [], extra) == true
      ensures verdict != Abort ==> after.attempts == g.attempts + AttemptsIn(Bulk(chunk, FailedReply(category))) + extra
      ensures cloud.SameCircuit(old(cloud)) && (verdict == Continue ==> cloud == old(cloud) && now >= cloud.backoffUntil)
      ensures verdict == Continue ==> extra != []
    {
      var results, abort;
      ghost var paused := pauses;
      after := FailChunk(g, chunk, category, now, start);
      ghost var failing := pauses;
      results, abort, events := CoreFallback(chunk, now);
      extra := From(results, FromFallback);
      FallbackMeans(results);
      if abort {
        return after, Abort, events, extra;
      }
      FailedTallies(g, chunk, category, events, after);
      if results == [] {
        return after, Break, events, extra;
      }
      ghost var failed := after;
      after := ApplyResults(after, results, FromFallback, now, start, chunk);
      PausesTwice(paused, failing, pauses, Elements(chunk));
      after, verdict := AfterRead(after, results, chunk, now);
      FailedTallies(g, chunk, category, events, after);
    }

    method FailChunk(g: Progress, chunk: seq<Path>, category: string, now: int, ghost start: map<Path, Snapshot>) returns (after: Progress)
      requires Explained(g, start, now) == true
      modifies `pauses, `manual, `pathsByGroup
      ensures Explained(after, start, now) == true && after.attempts == g.attempts + AttemptsIn(Bulk(chunk, FailedReply(category)))
      ensures after.failed == g.failed + 1 && after.gatewayFailure && after.interrupted == g.interrupted + Elements(chunk)
      ensures PausesOnly(old(pauses), pauses, Elements(chunk)) == true
    {
      after := ApplyResults(g, Alike(chunk, None, category), FromBatch, now, start, chunk);
      after := after.(interrupted := after.interrupted + Elements(chunk), failed := after.failed + 1, gatewayFailure := true);
    }

    method UseItems(g: Progress, results: seq<Result>, chunk: seq<Path>, now: int, ghost start: map<Path, Snapshot>)
      returns (after: Progress, verdict: Verdict, ghost events: seq<Event>, ghost extra: seq<Attempt>)
      requires Explained(g, start, now) == true && Within(results, chunk) && now >= cloud.backoffUntil
      modifies `pauses, `manual, `pathsByGroup, `cloud, `log
      ensures log == old(log) + events && FallbackReads(events, RecoverablePaths(results))
      ensures verdict == (if LosesAuth(events) then Abort
                          else if AnyStatus(results, 429) || RefusedLast(events) || AllServerErrors(results) then Break else Continue)
      ensures cloud == if AnyStatus(results, 429) then old(cloud).RateLimited(None, now) else Backed(old(cloud), events, now)
      ensures verdict != Abort ==> TalliesChunk(g, chunk, [Bulk(chunk, Items(results))] + events, after) == true
      ensures if AnyStatus(results, 429) then events == [] else ItemsReadAgain(events, results) == true
      ensures Explained(after, start, now) == true && after.failed >= g.failed && (verdict == Break ==> after.failed > g.failed)
      ensures PausesOnly(old(pauses), pauses, Elements(chunk)) == true
      ensures g.interrupted <= after.interrupted <= g.interrupted + Elements(chunk)
      ensures Tells(events, [], extra) == true
      ensures verdict != Abort ==> after.attempts == g.attempts + AttemptsIn(Bulk(chunk, Items(results))) + extra
      ensures AnyStatus(results, 429) ==> verdict == Break && Elements(chunk) <= after.interrupted && now < cloud.backoffUntil
      ensures AllServerErrors(results) ==> verdict != Continue
      ensures cloud.SameCircuit(old(cloud)) && (verdict == Continue ==> cloud == old(cloud) && now >= cloud.backoffUntil)
    {
      var recovered, abort := [], false;
      events := [];
      GivesNothing();
      if !AnyStatus(results, 429) {
        recovered, abort, events := ItemFallback(results, now, chunk);
      }
      extra := From(recovered, FromFallback);
      if abort {
        return g, Abort, events, extra;
      }
      after := ApplyItems(g, results, recovered, now, start, chunk);
      ghost var backs := now < cloud.backoffUntil;
      after, verdict := AfterRead(after, results, chunk, now);
      ItemsTallies(g, chunk, results, events, after, backs);
    }

    // Records the items of a reply, and then what was read again.
    method ApplyItems(g: Progress, results: seq<Result>, recovered: seq<Result>, now: int, ghost start: map<Path, Snapshot>,
                      ghost chunk: seq<Path>) returns (after: Progress)
      requires Explained(g, start, now) == true && Within(results, chunk) && Within(recovered, chunk)
      modifies `pauses, `manual, `pathsByGroup
      ensures Explained(after, start, now) == true && after.attempts == g.attempts + From(results, FromBatch) + From(recovered, FromFallback)
      ensures after == g.(snapshots := after.snapshots, attempts := after.attempts)
      ensures PausesOnly(old(pauses), pauses, Elements(chunk)) == true
    {
      after := ApplyResults(g, results, FromBatch, now, start, chunk);
      ghost var paused := pauses;
      if recovered != [] {
        after := ApplyResults(after, recovered, FromFallback, now, start, chunk);
        PausesTwice(old(pauses), paused, pauses, Elements(chunk));
      }
    }

    // Reads the chunk that begins at `n`.
    method ReadNext(g: Progress, paths: seq<Path>, n: nat, now: int, ghost requests: seq<seq<Path>>)
      returns (after: Progress, verdict: Verdict, end: nat,
               ghost events: seq<Event>, ghost chunk: seq<Path>, ghost answer: BulkReply, ghost recorded: seq<Attempt>)
      requires Explained(g, data, now) == true && n < |paths| && Reading(paths, n, requests) == true && now >= cloud.backoffUntil
      modifies `pauses, `manual, `pathsByGroup, `cloud, `log
      ensures end == Min(n + MAX_BULK_PATHS, |paths|) && chunk == paths[n..end]
      ensures log == old(log) + events && Tells(events, [chunk], recorded) == true && IsChunkRead(events, chunk, answer) == true
      ensures (verdict == Abort <==> LosesAuth(events)) && (verdict == Continue ==> GoesOn(events) == true)
      ensures (verdict == Continue <==> !EndsCycle(events)) && cloud == BackedByChunk(old(cloud), events, now)
      ensures verdict != Abort ==> TalliesChunk(g, chunk, events, after) == true
      ensures Reading(paths, end, requests + [chunk]) == true && Chunked(requests + [chunk], paths[..end]) == true
      ensures Explained(after, data, now) == true && (verdict != Abort ==> after.attempts == g.attempts + recorded)
      ensures verdict == Break ==> after.failed > 0
      ensures PausesOnly(old(pauses), pauses, Elements(chunk)) == true
      ensures cloud.SameCircuit(old(cloud)) && (verdict == Continue ==> cloud == old(cloud) && now >= cloud.backoffUntil)
    {
      end := Min(n + MAX_BULK_PATHS, |paths|);
      chunk := paths[n..end];
      NextChunk(requests, paths, n, end, chunk);
      after, verdict, answer, events, recorded := ReadChunk(g, paths[n..end], now, data);
    }

    // Reads the chunks one after the other, until one ends the cycle early.
    method ReadAll(paths: seq<Path>, now: int)
      returns (g: Progress, attempted: nat, aborted: bool,
               ghost events: seq<Event>, ghost requests: seq<seq<Path>>, ghost attempts: seq<Attempt>)
      requires paths != [] && now >= cloud.backoffUntil
      modifies `pauses, `manual, `pathsByGroup, `cloud, `log
      ensures log == old(log) + events && Tells(events, requests, attempts) == true
      ensures (aborted <==> LosesAuth(events)) && (!aborted ==> Tallies(g, events) == true)
      ensures attempted <= |paths| && Chunked(requests, paths[..attempted]) == true
      ensures Explained(g, data, now) == true && (!aborted ==> g.attempts == attempts)
      ensures Min(MAX_BULK_PATHS, |paths|) <= attempted
      ensures !aborted && attempted < |paths| ==> g.failed > 0
      ensures ReadsOn(events) == true && (attempted < |paths| ==> EndsEarly(events) == true)
      ensures PausesOnly(old(pauses), pauses, Elements(paths[..attempted])) == true
      ensures cloud.SameCircuit(old(cloud)) && BackoffStep(old(cloud), cloud, events, now) == true
    {
      g, attempted, aborted, events, requests, attempts := Progress(data, [], 0, false, {}), 0, false, [], [], [];
      TellsNothing();
      while attempted < |paths|
        invariant log == old(log) + events && Tells(events, requests, attempts) == true
        invariant Reading(paths, attempted, requests) == true && Explained(g, data, now) == true && !aborted && g.attempts == attempts
        invariant attempted <= |paths| && (attempted > 0 ==> attempted >= Min(MAX_BULK_PATHS, |paths|))
        invariant PausesOnly(old(pauses), pauses, Elements(paths[..attempted])) == true
        invariant cloud == old(cloud) && !LosesAuth(events)
        invariant Tallies(g, events) == true && GoesOn(events) == true && EndsNowhere(events) == true
        invariant ReadsOn(events) == true && BackoffStep(old(cloud), cloud, events, now) == true
      {
        ghost var paused, earlier := pauses, g;
        var verdict, end;
        ghost var more, chunk, answer, recorded;
        g, verdict, end, more, chunk, answer, recorded := ReadNext(g, paths, attempted, now, requests);
        ChunkJoins(earlier, events, chunk, answer, more, g, verdict);
        ChunkNext(events, more, chunk, answer);
        BackoffNext(old(cloud), cloud, events, more, chunk, answer, now);
        PausesMore(old(pauses), paused, pauses, paths, attempted, end);
        TellsTogether(events, requests, attempts, more, [chunk], recorded);
        Associate(old(log), events, more);
        attempted, events, requests, attempts := end, events + more, requests + [chunk], attempts + recorded;
        if verdict == Abort {
          return g, attempted, true, events, requests, attempts;
        }
        if verdict == Break {
          break;
        }
      }
    }

    function IntervalOf(g: Group, notificationsActive: bool): int
      requires forall g :: g in groups ==> g in intervals
      requires g in groups
    {
      if g == Notifications && notificationsActive then ACTIVE_NOTIFICATION_INTERVAL else intervals[g]
    }

    method AdvanceGroups(advanced: seq<Group>, now: int, notificationsActive: bool)
      requires (forall g :: g in groups ==> g in intervals) && forall g :: g in advanced ==> g in groups
      modifies `next
      ensures AdvancesOnly(old(next), advanced, next)
      ensures forall g :: g in advanced ==> g in next && next[g] == now + IntervalOf(g, notificationsActive)
    {
      for i := 0 to |advanced|
        invariant forall g :: g !in advanced[..i] ==> NextOf(next, g) == NextOf(old(next), g)
        invariant forall g :: g in advanced[..i] ==> g in next && next[g] == now + IntervalOf(g, notificationsActive)
      {
        assert advanced[..i + 1] == advanced[..i] + [advanced[i]];
        next := next[advanced[i] := now + IntervalOf(advanced[i], notificationsActive)];
      }
      assert advanced[..|advanced|] == advanced;
    }

    // Pauses that have run out are forgotten.
    method EligiblePaths(candidates: seq<Path>, now: int) returns (paths: seq<Path>)
      modifies `pauses
      ensures paths == Unpaused(candidates, old(pauses), now)
      ensures PausesOnly(old(pauses), pauses, {}) == true
      ensures Expires(old(pauses), pauses, candidates, now) == true
    {
      paths := [];
      for i := 0 to |candidates|
        invariant paths == Unpaused(candidates[..i], old(pauses), now)
        invariant Expires(old(pauses), pauses, candidates[..i], now)
      {
        assert candidates[..i + 1][..i] == candidates[..i];
        var p := candidates[i];
        if Paused(pauses, p, now) {
          continue;
        }
        pauses := pauses - {p};
        paths := paths + [p];
      }
      assert candidates[..|candidates|] == candidates;
    }

    method SelectPaths(byGroup: map<Group, seq<Path>>, now: int) returns (due: seq<Group>, paths: seq<Path>)
      modifies `pauses
      ensures AreDue(paths, old(CurrentView()), groups, byGroup, now) == true && NoRepeats(paths)
      ensures PausesOnly(old(pauses), pauses, {}) == true && AreThose(due, groups, next, now) == true && forall g :: g in due ==> g in groups
    {
      due := DueGroups(groups, next, now);
      var eligible := EligiblePaths(Candidates(due, byGroup), now);
      paths := Resumed(deferred, eligible);
    }

    // Exactly the groups of which every path of this cycle is done.
    function CompletedGroups(due: seq<Group>, byGroup: map<Group, seq<Path>>, paths: set<Path>, done: set<Path>): (r: seq<Group>)
      ensures forall g :: g in r <==> g in due && AllDone(byGroup, g, paths, done)
    {
      if due == [] then [] else (if AllDone(byGroup, due[0], paths, done) then [due[0]] else []) + CompletedGroups(due[1..], byGroup, paths, done)
    }

    // Whether a cycle was usable, and which groups it completes.
    method Settle(g: Progress, now: int, due: seq<Group>, byGroup: map<Group, seq<Path>>, paths: seq<Path>, attempted: nat)
      returns (outcome: Outcome, advanced: seq<Group>)
      requires attempted <= |paths| && (attempted < |paths| ==> g.failed > 0)
      modifies `cloud
      ensures outcome == (if Successes(g.attempts) == 0 && g.failed > 0 then Unusable else Refreshed)
      ensures outcome == Unusable ==> advanced == [] && cloud == if g.gatewayFailure then old(cloud).GatewayFailed(now) else old(cloud)
      ensures outcome == Refreshed ==> cloud == if Successes(g.attempts) == 0 then old(cloud) else old(cloud).Recovered()
      ensures outcome == Refreshed ==>
                forall h :: h in advanced <==>
                  h in due && (Successes(g.attempts) == 0 || AllDone(byGroup, h, Elements(paths), DonePaths(g, data, paths[..attempted])))
      ensures forall h :: h in advanced ==> h in due && AllDone(byGroup, h, Elements(paths), Elements(paths[..attempted]))
      ensures cloud.SameBackoff(old(cloud))
    {
      if Successes(g.attempts) == 0 && g.failed > 0 {
        if g.gatewayFailure {
          cloud := cloud.GatewayFailed(now);
        }
        return Unusable, [];
      }
      if Successes(g.attempts) == 0 {
        assert paths[..attempted] == paths;
        return Refreshed, due;
      }
      cloud := cloud.Recovered();
      var tried := Elements(paths[..attempted]);
      var confirmed := set p | p in tried && p in data && data[p].available;
      assert tried - g.interrupted + confirmed == DonePaths(g, data, paths[..attempted]);
      return Refreshed, CompletedGroups(due, byGroup, Elements(paths), tried - g.interrupted + confirmed);
    }

    // Unread paths are deferred, and the snapshots of the cycle published.
    method Publish(g: Progress, unread: seq<Path>, now: int)
      requires Explained(g, data, now) == true
      modifies `deferred, `data, `mainCycleFailed
      ensures deferred == unread && Published(old(data), data, g.attempts, now, unread) == true
      ensures mainCycleFailed <==> g.failed > 0 || exists i :: 0 <= i < |g.attempts| && !Tolerable(g.attempts[i].result)
    {
      ApplyAllTwice(data, MutationsOf(g.attempts, now), Defers(unread));
      deferred, data := unread, ApplyAll(g.snapshots, Defers(unread));
      mainCycleFailed := g.failed > 0 || exists i :: 0 <= i < |g.attempts| && !Tolerable(g.attempts[i].result);
    }

    method ReadDue(now: int, due: seq<Group>, byGroup: map<Group, seq<Path>>, paths: seq<Path>, notificationsActive: bool)
      returns (outcome: Outcome, ghost step: Step, ghost events: seq<Event>, ghost attempts: seq<Attempt>)
      requires (forall g :: g in groups ==> g in intervals) && (forall g :: g in due ==> g in groups)
      requires paths != [] && NoRepeats(paths) && now >= cloud.backoffUntil && AreThose(due, groups, next, now) == true
      modifies this
      ensures log == old(log) + events && Tells(events, step.Requests(), attempts) == true
      ensures outcome == AuthenticationFailed <==> LosesAuth(events)
      ensures outcome != AuthenticationFailed ==>
                step.Executes?
                && Concludes(old(next), step.cycle, events, attempts, data, next, intervals, notificationsActive, mainCycleFailed, outcome) == true
      ensures outcome == AuthenticationFailed || outcome == Unusable || outcome == Refreshed
      ensures outcome == AuthenticationFailed ==>
                step.Rests? && step.at == now && Quiet(old(CurrentView()), step.requests, now, CurrentView()) == true && data == old(data)
      ensures outcome != AuthenticationFailed ==>
                step.Executes? && step.cycle == Cycle(now, groups, byGroup, paths, step.cycle.attempted, step.cycle.requests, step.cycle.advanced)
                && Ends(old(CurrentView()), step.cycle, CurrentView()) == true
      ensures outcome != AuthenticationFailed ==> Published(old(data), data, attempts, now, deferred) == true
      ensures outcome == Unusable ==> step.cycle.advanced == []
      ensures CircuitStep(old(cloud), cloud, outcome, Successes(attempts), Suspects(events), now) == true
      ensures BackoffStep(old(cloud), cloud, events, now) == true && ReadsOn(events) == true
      ensures step.Executes? && step.cycle.attempted < |step.cycle.paths| ==> EndsEarly(events) == true
    {
      var g, attempted, aborted;
      ghost var requests;
      g, attempted, aborted, events, requests, attempts := ReadAll(paths, now);
      if aborted {
        AbortIsQuiet(old(CurrentView()), requests, paths[..attempted], now, CurrentView());
        return AuthenticationFailed, Rests(requests, now), events, attempts;
      }
      outcome, step := EndRead(g, now, due, byGroup, paths, attempted, notificationsActive, requests, old(CurrentView()), old(cloud), events);
    }

    // What was read is published, and the rest is deferred; then the cycle is concluded.
    method EndRead(g: Progress, now: int, due: seq<Group>, byGroup: map<Group, seq<Path>>, paths: seq<Path>, attempted: nat,
                   notificationsActive: bool, ghost requests: seq<seq<Path>>, ghost before: View, ghost start: Cloud, ghost events: seq<Event>)
      returns (outcome: Outcome, ghost step: Step)
      requires (forall g :: g in groups ==> g in intervals) && (forall g :: g in due ==> g in groups)
      requires paths != [] && Min(MAX_BULK_PATHS, |paths|) <= attempted <= |paths| && (attempted < |paths| ==> g.failed > 0)
      requires next == before.next && Chunked(requests, paths[..attempted]) == true
      requires PausesOnly(before.pauses, pauses, Elements(paths[..attempted])) == true
      requires Explained(g, data, now) == true && cloud.SameCircuit(start)
      requires Tallies(g, events) == true && AreThose(due, groups, before.next, now) == true
      modifies `deferred, `data, `mainCycleFailed, `cloud, `next
      ensures step.Executes?
              && Concludes(before.next, step.cycle, events, g.attempts, data, next, intervals, notificationsActive, mainCycleFailed, outcome) == true
      ensures outcome == Unusable || outcome == Refreshed
      ensures step.Executes? && step.cycle == Cycle(now, groups, byGroup, paths, attempted, requests, step.cycle.advanced)
      ensures Ends(before, step.cycle, CurrentView()) == true && (outcome == Unusable ==> step.cycle.advanced == [])
      ensures Published(old(data), data, g.attempts, now, deferred) == true
      ensures CircuitStep(start, cloud, outcome, Successes(g.attempts), Suspects(events), now) == true
      ensures cloud.SameBackoff(old(cloud))
    {
      ghost var read := cloud;
      Publish(g, paths[attempted..], now);
      outcome, step := Conclude(g, now, due, byGroup, paths, attempted, notificationsActive, requests, before);
      SettlesFrom(start, read, cloud, outcome, Successes(g.attempts), g.gatewayFailure, now);
      ConcludedAs(before.next, step.cycle, g, events, data, next, intervals, notificationsActive, mainCycleFailed, outcome);
    }

    // The verdict of a cycle, and the groups that it advances.
    method Conclude(g: Progress, now: int, due: seq<Group>, byGroup: map<Group, seq<Path>>, paths: seq<Path>, attempted: nat,
                    notificationsActive: bool, ghost requests: seq<seq<Path>>, ghost before: View)
      returns (outcome: Outcome, ghost step: Step)
      requires (forall g :: g in groups ==> g in intervals) && (forall g :: g in due ==> g in groups)
      requires paths != [] && Min(MAX_BULK_PATHS, |paths|) <= attempted <= |paths| && (attempted < |paths| ==> g.failed > 0)
      requires deferred == paths[attempted..] && next == before.next && Chunked(requests, paths[..attempted]) == true
      requires PausesOnly(before.pauses, pauses, Elements(paths[..attempted])) == true
      requires AreThose(due, groups, before.next, now) == true
      modifies `cloud, `next
      ensures outcome == Unusable || outcome == Refreshed
      ensures step.Executes? && Settles(before.next, step.cycle, g, data, outcome) == true
      ensures Timed(step.cycle, next, intervals, notificationsActive) == true
      ensures step.Executes? && step.cycle == Cycle(now, groups, byGroup, paths, attempted, requests, step.cycle.advanced)
      ensures Ends(before, step.cycle, CurrentView()) == true && (outcome == Unusable ==> step.cycle.advanced == [])
      ensures CircuitStep(old(cloud), cloud, outcome, Successes(g.attempts), g.gatewayFailure, now) == true
      ensures cloud.SameBackoff(old(cloud))
    {
      var advanced;
      outcome, advanced := Rule(g, now, due, byGroup, paths, attempted, notificationsActive);
      step := Executes(Cycle(now, groups, byGroup, paths, attempted, requests, advanced));
      SettledAs(before.next, step.cycle, due, g, data, outcome);
      CycleEnds(before, step.cycle, next, pauses);
    }

    method Rule(g: Progress, now: int, due: seq<Group>, byGroup: map<Group, seq<Path>>, paths: seq<Path>, attempted: nat,
                notificationsActive: bool) returns (outcome: Outcome, advanced: seq<Group>)
      requires (forall g :: g in groups ==> g in intervals) && (forall g :: g in due ==> g in groups)
      requires attempted <= |paths| && (attempted < |paths| ==> g.failed > 0)
      modifies `cloud, `next
      ensures outcome == (if Successes(g.attempts) == 0 && g.failed > 0 then Unusable else Refreshed)
      ensures outcome == Unusable ==> advanced == []
      ensures outcome == Refreshed ==>
                forall h :: h in advanced <==>
                  h in due && (Successes(g.attempts) == 0 || AllDone(byGroup, h, Elements(paths), DonePaths(g, data, paths[..attempted])))
      ensures forall h :: h in advanced ==> h in due && AllDone(byGroup, h, Elements(paths), Elements(paths[..attempted]))
      ensures AdvancesOnly(old(next), advanced, next)
      ensures forall h :: h in advanced ==> h in next && next[h] == now + IntervalOf(h, notificationsActive)
      ensures CircuitStep(old(cloud), cloud, outcome, Successes(g.attempts), g.gatewayFailure, now) == true
      ensures cloud.SameBackoff(old(cloud))
    {
      outcome, advanced := Settle(g, now, due, byGroup, paths, attempted);
      SettlesCircuit(old(cloud), cloud, g, outcome, now);
      AdvanceGroups(advanced, now, notificationsActive);
    }

    /** An explicit refresh makes every polled group due. */
    method RequestRefresh(now: int) returns (ghost step: Step)
      modifies `next
      ensures step == Rests([], now) && Follows(old(CurrentView()), step, CurrentView())
      ensures forall g :: g in groups ==> IsDue(next, g, now)
      ensures forall g :: g !in groups ==> NextOf(next, g) == NextOf(old(next), g)
    {
      for i := 0 to |groups|
        invariant forall g :: g in groups[..i] ==> NextOf(next, g) <= now
        invariant forall g :: NextOf(next, g) <= Max(NextOf(old(next), g), now)
        invariant forall g :: g !in groups[..i] ==> NextOf(next, g) == NextOf(old(next), g)
      {
        var g := groups[i];
        assert groups[..i + 1] == groups[..i] + [g];
        next := next[g := if g in next then Min(next[g], now) else now];
      }
      assert groups[..|groups|] == groups;
      step := Rests([], now);
    }

    /**
      One cycle. `pending` are manual setpoints still missing on circuits in manual mode; they are read with
      the control group. The events are the requests of the cycle with their replies.
     */
    method Poll(now: int, pending: seq<Path>, notificationsActive: bool)
      returns (outcome: Outcome, ghost step: Step, ghost events: seq<Event>, ghost attempts: seq<Attempt>)
      requires forall g :: g in groups ==> g in intervals
      modifies this
      ensures log == old(log) + events && Tells(events, step.Requests(), attempts) == true
      ensures Follows(old(CurrentView()), step, CurrentView()) == true
      ensures step.Executes? <==> outcome == Idle || outcome == Unusable || outcome == Refreshed
      ensures step.Executes? ==>
                && step.cycle.now == now && step.cycle.groups == groups
                && step.cycle.byGroup == old(pathsByGroup)[Control := PathsOf(old(pathsByGroup), Control) + pending]
      ensures step.Rests? ==> step.at == now
      ensures !step.Executes? || step.cycle.paths == [] ==> data == old(data)
      ensures step.Executes? && step.cycle.paths != [] ==>
                Published(old(data), data, attempts, now, deferred) == true
      ensures outcome == Refused <==> now < old(cloud).backoffUntil || now < old(cloud).circuitOpenUntil
      ensures outcome == AuthenticationFailed <==> LosesAuth(events)
      ensures step.Executes? ==>
                Finishes(old(next), step.cycle, events, attempts, data, next, intervals, notificationsActive, mainCycleFailed, outcome) == true
      ensures outcome == Refused || outcome == Idle ==> events == []
      ensures outcome == Unusable ==> step.cycle.advanced == []
      ensures CircuitStep(old(cloud), cloud, outcome, Successes(attempts), Suspects(events), now) == true
      ensures BackoffStep(old(cloud), cloud, events, now) == true && ReadsOn(events) == true
      ensures step.Executes? && step.cycle.attempted < |step.cycle.paths| ==> EndsEarly(events) == true
    {
      if cloud.Refuses(now) {
        TellsNothing();
        RestIsQuiet(CurrentView(), now);
        return Refused, Rests([], now), [], [];
      }
      var byGroup := pathsByGroup[Control := PathsOf(pathsByGroup, Control) + pending];
      outcome, step, events, attempts := PollDue(now, byGroup, notificationsActive);
    }

    method PollDue(now: int, byGroup: map<Group, seq<Path>>, notificationsActive: bool)
      returns (outcome: Outcome, ghost step: Step, ghost events: seq<Event>, ghost attempts: seq<Attempt>)
      requires (forall g :: g in groups ==> g in intervals) && now >= cloud.backoffUntil
      modifies this
      ensures log == old(log) + events && Tells(events, step.Requests(), attempts) == true
      ensures Follows(old(CurrentView()), step, CurrentView()) == true
      ensures outcome == AuthenticationFailed <==> LosesAuth(events)
      ensures step.Executes? ==>
                Finishes(old(next), step.cycle, events, attempts, data, next, intervals, notificationsActive, mainCycleFailed, outcome) == true
      ensures outcome != Refused && (step.Rests? <==> outcome == AuthenticationFailed)
      ensures step.Executes? ==> step.cycle.now == now && step.cycle.groups == groups && step.cycle.byGroup == byGroup
      ensures step.Rests? ==> step.at == now
      ensures !step.Executes? || step.cycle.paths == [] ==> data == old(data)
      ensures step.Executes? && step.cycle.paths != [] ==> Published(old(data), data, attempts, now, deferred) == true
      ensures outcome == Idle ==> events == []
      ensures outcome == Unusable ==> step.cycle.advanced == []
      ensures CircuitStep(old(cloud), cloud, outcome, Successes(attempts), Suspects(events), now) == true
      ensures BackoffStep(old(cloud), cloud, events, now) == true && ReadsOn(events) == true
      ensures step.Executes? && step.cycle.attempted < |step.cycle.paths| ==> EndsEarly(events) == true
    {
      ghost var before := CurrentView();
      var due, paths := SelectPaths(byGroup, now);
      ghost var mid := CurrentView();
      outcome, step, events, attempts := ReadSelected(now, due, byGroup, paths, notificationsActive);
      StepFollows(before, mid, step, CurrentView());
    }

    method ReadSelected(now: int, due: seq<Group>, byGroup: map<Group, seq<Path>>, paths: seq<Path>, notificationsActive: bool)
      returns (outcome: Outcome, ghost step: Step, ghost events: seq<Event>, ghost attempts: seq<Attempt>)
      requires (forall g :: g in groups ==> g in intervals) && (forall g :: g in due ==> g in groups) && NoRepeats(paths)
      requires now >= cloud.backoffUntil && AreThose(due, groups, next, now) == true
      modifies this
      ensures outcome == AuthenticationFailed <==> LosesAuth(events)
      ensures step.Executes? ==>
                Finishes(old(next), step.cycle, events, attempts, data, next, intervals, notificationsActive, mainCycleFailed, outcome) == true
      ensures log == old(log) + events && Tells(events, step.Requests(), attempts) == true
      ensures outcome != Refused && (step.Rests? <==> outcome == AuthenticationFailed)
      ensures step.Executes? ==>
                && step.cycle == Cycle(now, groups, byGroup, paths, step.cycle.attempted, step.cycle.requests, step.cycle.advanced)
                && Ends(old(CurrentView()), step.cycle, CurrentView()) == true
      ensures step.Rests? ==> step.at == now && Quiet(old(CurrentView()), step.requests, now, CurrentView()) == true
      ensures step.Rests? || paths == [] ==> data == old(data)
      ensures step.Executes? && paths != [] ==> Published(old(data), data, attempts, now, deferred) == true
      ensures outcome == Idle ==> events == []
      ensures outcome == Unusable ==> step.cycle.advanced == []
      ensures CircuitStep(old(cloud), cloud, outcome, Successes(attempts), Suspects(events), now) == true
      ensures BackoffStep(old(cloud), cloud, events, now) == true && ReadsOn(events) == true
      ensures step.Executes? && step.cycle.attempted < |step.cycle.paths| ==> EndsEarly(events) == true
    {
      if paths != [] {
        outcome, step, events, attempts := ReadDue(now, due, byGroup, paths, notificationsActive);
        return;
      }
      ghost var before := CurrentView();
      TellsNothing();
      AdvanceGroups(due, now, notificationsActive);
      outcome, step, events, attempts := Idle, Executes(Cycle(now, groups, byGroup, paths, 0, [], due)), [], [];
      assert Timed(step.cycle, next, intervals, notificationsActive);
      IdleEnds(before, step.cycle, next);
    }
  }

  /** Every path of the group that this cycle reads is done. */
  predicate AllDone(byGroup: map<Group, seq<Path>>, g: Group, paths: set<Path>, done: set<Path>) {
    forall p :: p in PathsOf(byGroup, g) && p in paths ==> p in done
  }

  /** Attempted paths are done unless their chunk was interrupted; a confirmed value counts all the same. */
  function DonePaths(g: Progress, data: map<Path, Snapshot>, attempted: seq<Path>): set<Path> {
    set p | p in attempted && (p !in g.interrupted || (p in data && data[p].available))
  }

  ghost predicate NoneRead(attempts: seq<Attempt>) { forall i :: 0 <= i < |attempts| ==> attempts[i].result.value.None? }

  lemma {:induction false} SuccessesExactly(attempts: seq<Attempt>)
    ensures Successes(attempts) == 0 <==> NoneRead(attempts)
  {
    if attempts != [] {
      var front := attempts[..|attempts| - 1];
      SuccessesExactly(front);
      assert forall i :: 0 <= i < |front| ==> front[i] == attempts[i];
    }
  }

  /** The groups that are due. */
  ghost predicate AreThose(due: seq<Group>, groups: seq<Group>, next: map<Group, int>, now: int) {
    forall h :: h in due <==> h in groups && NextOf(next, h) <= now + 1
  }

  /** Every path of the group that this cycle read was requested and not interrupted, or has a current value. */
  ghost predicate IsDone(c: Cycle, h: Group, interrupted: set<Path>, data: map<Path, Snapshot>) {
    forall p :: p in PathsOf(c.byGroup, h) && p in c.paths ==>
      (exists i :: 0 <= i < c.attempted && i < |c.paths| && c.paths[i] == p) && (p !in interrupted || (p in data && data[p].available))
  }

  ghost predicate Settles(next: map<Group, int>, c: Cycle, g: Progress, data: map<Path, Snapshot>, outcome: Outcome) {
    && outcome == (if NoneRead(g.attempts) && g.failed > 0 then Unusable else Refreshed)
    && forall h :: h in c.advanced <==>
         && h in c.groups && NextOf(next, h) <= c.now + 1 && outcome == Refreshed
         && (NoneRead(g.attempts) || IsDone(c, h, g.interrupted, data))
  }

  /** The groups advanced are next due after their interval; active notifications are read every minute. */
  ghost predicate Timed(c: Cycle, next: map<Group, int>, intervals: map<Group, int>, notificationsActive: bool) {
    forall h :: h in c.advanced ==>
      h in intervals && h in next && next[h] == c.now + if h == Notifications && notificationsActive then 60 else intervals[h]
  }

  /** Local path errors do not fail a cycle. */
  ghost predicate IsTolerable(r: Result) { r.value.Some? || (r.status.Some? && r.status.value in {403, 404, 406}) }

  /** How a cycle that read something ends, in terms of its replies and of what it published. */
  ghost predicate Concludes(before: map<Group, int>, c: Cycle, events: seq<Event>, attempts: seq<Attempt>, data: map<Path, Snapshot>,
                            next: map<Group, int>, intervals: map<Group, int>, notificationsActive: bool, mainCycleFailed: bool,
                            outcome: Outcome) {
    && outcome == (if NoneRead(attempts) && Fails(events) then Unusable else Refreshed)
    && (c.attempted < |c.paths| ==> Fails(events))
    && (mainCycleFailed <==> Fails(events) || exists i :: 0 <= i < |attempts| && !IsTolerable(attempts[i].result))
    && (forall h :: h in c.advanced <==>
          && h in c.groups && NextOf(before, h) <= c.now + 1 && outcome == Refreshed
          && (NoneRead(attempts) || IsDone(c, h, InterruptedIn(events), data)))
    && Timed(c, next, intervals, notificationsActive)
  }

  /** How an executed cycle ends; one with nothing to read advances all due groups. */
  ghost predicate Finishes(before: map<Group, int>, c: Cycle, events: seq<Event>, attempts: seq<Attempt>, data: map<Path, Snapshot>,
                           next: map<Group, int>, intervals: map<Group, int>, notificationsActive: bool, mainCycleFailed: bool,
                           outcome: Outcome) {
    if c.paths == [] then outcome == Idle && AreThose(c.advanced, c.groups, before, c.now) && Timed(c, next, intervals, notificationsActive)
    else Concludes(before, c, events, attempts, data, next, intervals, notificationsActive, mainCycleFailed, outcome)
  }

  lemma SettledAs(next: map<Group, int>, c: Cycle, due: seq<Group>, g: Progress, data: map<Path, Snapshot>, outcome: Outcome)
    requires c.attempted <= |c.paths| && AreThose(due, c.groups, next, c.now)
    requires outcome == (if Successes(g.attempts) == 0 && g.failed > 0 then Unusable else Refreshed)
    requires outcome == Unusable ==> c.advanced == []
    requires outcome == Refreshed ==>
               forall h :: h in c.advanced <==>
                 h in due && (Successes(g.attempts) == 0 || AllDone(c.byGroup, h, Elements(c.paths), DonePaths(g, data, c.paths[..c.attempted])))
    ensures Settles(next, c, g, data, outcome) == true
  {
    SuccessesExactly(g.attempts);
    forall h ensures AllDone(c.byGroup, h, Elements(c.paths), DonePaths(g, data, c.paths[..c.attempted])) <==>
                     IsDone(c, h, g.interrupted, data) {
      DoneExactly(c, h, g, data);
    }
  }

  lemma DoneExactly(c: Cycle, h: Group, g: Progress, data: map<Path, Snapshot>)
    requires c.attempted <= |c.paths|
    ensures AllDone(c.byGroup, h, Elements(c.paths), DonePaths(g, data, c.paths[..c.attempted])) <==>
            IsDone(c, h, g.interrupted, data)
  {
    forall p ensures p in c.paths[..c.attempted] <==> exists i :: 0 <= i < c.attempted && i < |c.paths| && c.paths[i] == p {
      if i :| 0 <= i < c.attempted && i < |c.paths| && c.paths[i] == p {
        assert c.paths[..c.attempted][i] == p;
      }
    }
  }

  lemma ConcludedAs(before: map<Group, int>, c: Cycle, g: Progress, events: seq<Event>, data: map<Path, Snapshot>, next: map<Group, int>,
                    intervals: map<Group, int>, notificationsActive: bool, mainCycleFailed: bool, outcome: Outcome)
    requires Settles(before, c, g, data, outcome) && Timed(c, next, intervals, notificationsActive) && Tallies(g, events)
    requires c.attempted < |c.paths| ==> g.failed > 0
    requires mainCycleFailed <==> g.failed > 0 || exists i :: 0 <= i < |g.attempts| && !Tolerable(g.attempts[i].result)
    ensures Concludes(before, c, events, g.attempts, data, next, intervals, notificationsActive, mainCycleFailed, outcome) == true
  {
    forall p ensures p in InterruptedIn(events) <==> Interrupts(events, p) {
    }
    assert g.interrupted == InterruptedIn(events);
    assert forall i :: 0 <= i < |g.attempts| ==> (Tolerable(g.attempts[i].result) <==> IsTolerable(g.attempts[i].result));
  }

  /** At most five individual reads, only of these paths. */
  ghost predicate FallbackReads(events: seq<Event>, allowed: seq<Path>) {
    && |events| <= MAX_FALLBACK_PATHS
    && forall i :: 0 <= i < |events| ==> events[i].Single? && events[i].path in allowed
  }

  /** Which single reads follow a bulk reply. */
  ghost predicate ReadsAgain(answer: BulkReply, singles: seq<Event>, chunk: seq<Path>) {
    match answer
    case Items(results) => if AnyStatus(results, 429) then singles == [] else ItemsReadAgain(singles, results)
    case FailedReply(_) => CoreReadAgain(singles, chunk)
    case _ => singles == []
  }

  ghost predicate IsRecoverable(r: Result) {
    r.value.None? && (r.malformed || (r.status.Some? && 500 <= r.status.value <= 599))
  }

  lemma {:induction false} RecoverableExactly(results: seq<Result>, p: Path)
    ensures p in RecoverablePaths(results) <==> exists i :: 0 <= i < |results| && results[i].path == p && IsRecoverable(results[i])
  {
    if results != [] {
      var front, last := results[..|results| - 1], results[|results| - 1];
      RecoverableExactly(front, p);
      if i :| 0 <= i < |front| && front[i].path == p && IsRecoverable(front[i]) {
        assert results[i] == front[i];
      }
      if i :| 0 <= i < |results| && results[i].path == p && IsRecoverable(results[i]) {
        assert i < |front| ==> front[i] == results[i];
      }
    }
  }

  /** Up to five of these paths, each once: all of them if they are fewer, and essential ones before others. */
  ghost predicate IsSelection(selected: seq<Path>, wanted: seq<Path>) {
    && NoRepeats(selected) && |selected| <= 5 && (forall p :: p in selected ==> p in wanted)
    && (|selected| < 5 ==> forall p :: p in wanted ==> p in selected)
    && (forall p :: p in wanted && p in PRIORITY_PATHS && p !in selected ==> forall q :: q in selected ==> q in PRIORITY_PATHS)
  }

  ghost predicate ItemsReadAgain(events: seq<Event>, results: seq<Result>) {
    exists selected :: IsSelection(selected, RecoverablePaths(results)) && ReadsOf(events, selected)
  }

  /** All essential paths of the chunk are read, each once. */
  ghost predicate CoreReadAgain(events: seq<Event>, chunk: seq<Path>) {
    exists selected :: IsCore(selected, chunk) && ReadsOf(events, selected)
  }

  ghost predicate IsCore(selected: seq<Path>, chunk: seq<Path>) {
    NoRepeats(selected) && forall p :: p in selected <==> p in PRIORITY_PATHS && p in chunk
  }

  lemma EssentialsDiffer()
    ensures NoRepeats(PRIORITY_PATHS) && |PRIORITY_PATHS| == 5
  {
    assert |PRIORITY_PATHS[0].text| == 36 && |PRIORITY_PATHS[1].text| == 30 && |PRIORITY_PATHS[2].text| == 29;
    assert |PRIORITY_PATHS[3].text| == 27 && |PRIORITY_PATHS[4].text| == 39;
  }

  lemma {:induction false} KeepDistinct(s: seq<Path>, wanted: set<Path>)
    requires NoRepeats(s)
    ensures NoRepeats(Keep(s, wanted))
  {
    if s != [] {
      KeepDistinct(s[..|s| - 1], wanted);
    }
  }

  lemma SelectsItems(broken: seq<Path>, kept: seq<Path>, wanted: seq<Path>, selected: seq<Path>)
    requires kept == Keep(PRIORITY_PATHS, Elements(broken)) && wanted == Unique(kept + broken)
    requires selected == wanted[..Min(MAX_FALLBACK_PATHS, |wanted|)]
    ensures IsSelection(selected, broken)
  {
    forall p | p in selected ensures p in broken {
      assert p in wanted;
    }
    forall p | p in broken && |selected| < 5 ensures p in selected {
      assert p in wanted && selected == wanted;
    }
    forall p, q | p in broken && p in PRIORITY_PATHS && p !in selected && q in selected ensures q in PRIORITY_PATHS {
      SelectsEssential(broken, kept, wanted, selected, p, q);
    }
  }

  lemma SelectsEssential(broken: seq<Path>, kept: seq<Path>, wanted: seq<Path>, selected: seq<Path>, p: Path, q: Path)
    requires kept == Keep(PRIORITY_PATHS, Elements(broken)) && wanted == Unique(kept + broken) && selected <= wanted
    requires p in broken && p in PRIORITY_PATHS && p !in selected && q in selected
    ensures q in PRIORITY_PATHS
  {
    UniquePrefix(kept, broken);
    assert p in kept && p in Unique(kept);
    var m :| 0 <= m < |Unique(kept)| && Unique(kept)[m] == p;
    var i :| 0 <= i < |selected| && selected[i] == q;
    assert wanted[m] == p && wanted[i] == q;
    assert i < m < |Unique(kept)| && Unique(kept)[i] == q;
  }

  lemma SelectsCore(chunk: seq<Path>, prioritized: seq<Path>)
    requires prioritized == Keep(PRIORITY_PATHS, Elements(chunk))
    ensures IsCore(prioritized, chunk) && prioritized[..Min(MAX_FALLBACK_PATHS, |prioritized|)] == prioritized
  {
    EssentialsDiffer();
    KeepDistinct(PRIORITY_PATHS, Elements(chunk));
  }

  lemma FallbackIsBounded(events: seq<Event>, selected: seq<Path>, wanted: seq<Path>, allowed: seq<Path>)
    requires ReadsOf(events, selected) && selected <= wanted && |selected| <= MAX_FALLBACK_PATHS
    requires forall p :: p in wanted ==> p in allowed
    ensures FallbackReads(events, allowed)
  {
    forall i | 0 <= i < |events| ensures events[i].path in allowed {
      assert wanted[i] == selected[i];
    }
  }

  lemma NextRead(events: seq<Event>, paths: seq<Path>, i: nat, reply: SingleReply)
    requires i == |events| < |paths| && ReadsOf(events, paths[..i]) && (events != [] ==> !Stops(events[|events| - 1].single))
    ensures ReadsOf(events + [Single(paths[i], reply)], paths[..i + 1])
    ensures Stops(reply) ==> ReadsOf(events + [Single(paths[i], reply)], paths)
  {
  }

  /** The first `i` paths were read individually, none was refused, and these are the results. */
  ghost predicate ReadSoFar(events: seq<Event>, paths: seq<Path>, i: nat, results: seq<Result>) {
    && |events| == i <= |paths| && ReadsOf(events, paths[..i]) && (events != [] ==> !Stops(events[|events| - 1].single))
    && Gives(events, results) && Within(results, paths)
  }

  /** Individual reads of these paths, their results, and whether the last one was refused for lost authentication. */
  ghost predicate IsReadOf(events: seq<Event>, paths: seq<Path>, results: seq<Result>, abort: bool) {
    && ReadsOf(events, paths) && Gives(events, results) && Within(results, paths)
    && (abort <==> events != [] && events[|events| - 1].single.SingleAuthentication?)
  }

  lemma ReadOne(before: seq<Event>, events: seq<Event>, paths: seq<Path>, i: nat, results: seq<Result>, reply: SingleReply)
    requires ReadSoFar(events, paths, i, results) && i < |paths|
    ensures var e, more := Single(paths[i], reply), results + Recorded(paths[i], reply);
            && before + (events + [e]) == before + events + [e]
            && if Stops(reply) then IsReadOf(events + [e], paths, more, reply.SingleAuthentication?) == true
               else ReadSoFar(events + [e], paths, i + 1, more) == true
  {
    NextRead(events, paths, i, reply);
    GivesNext(events, results, paths[i], reply);
    WithinNext(results, paths, i, reply);
    Associate(before, events, [Single(paths[i], reply)]);
  }

  lemma AllRead(events: seq<Event>, paths: seq<Path>, results: seq<Result>)
    requires ReadSoFar(events, paths, |paths|, results)
    ensures IsReadOf(events, paths, results, false) == true
  {
    assert paths[..|paths|] == paths;
  }

  /** One bulk request for this chunk, and at most five individual reads. */
  ghost predicate IsChunkRead(events: seq<Event>, chunk: seq<Path>, reply: BulkReply) {
    && 1 <= |events| <= 1 + MAX_FALLBACK_PATHS && events[0] == Bulk(chunk, reply)
    && forall i :: 1 <= i < |events| ==> events[i].Single?
  }

  lemma JoinsChunk(e: Event, more: seq<Event>, extra: seq<Attempt>)
    requires e.Bulk? && Tells(more, [], extra) && |more| <= MAX_FALLBACK_PATHS && forall i :: 0 <= i < |more| ==> more[i].Single?
    ensures IsChunkRead([e] + more, e.paths, e.reply) && Tells([e] + more, [e.paths], AttemptsIn(e) + extra)
  {
    TellsOne(e);
    TellsTogether([e], [e.paths], AttemptsIn(e), more, [], extra);
  }

  ghost predicate LastIsFull(requests: seq<seq<Path>>) { requests != [] && |requests[|requests| - 1]| == MAX_BULK_PATHS }

  /** The chunks so far cover the paths so far; only the last chunk of all may be short. */
  ghost predicate Reading(paths: seq<Path>, n: nat, requests: seq<seq<Path>>) {
    n <= |paths| && Chunked(requests, paths[..n]) && (n < |paths| && requests != [] ==> LastIsFull(requests))
  }

  lemma NextChunk(requests: seq<seq<Path>>, paths: seq<Path>, n: nat, end: nat, chunk: seq<Path>)
    requires n < |paths| && Reading(paths, n, requests) && end == Min(n + MAX_BULK_PATHS, |paths|) && chunk == paths[n..end]
    ensures Reading(paths, end, requests + [chunk]) == true && Chunked(requests + [chunk], paths[..end]) == true
  {
    assert paths[..end] == paths[..n] + chunk;
    ChunkedNext(requests, paths[..n], chunk, paths[..end]);
  }

  lemma ChunkedNext(requests: seq<seq<Path>>, earlier: seq<Path>, chunk: seq<Path>, paths: seq<Path>)
    requires Chunked(requests, earlier) && 1 <= |chunk| <= MAX_BULK_PATHS && paths == earlier + chunk
    requires requests != [] ==> LastIsFull(requests)
    ensures Chunked(requests + [chunk], paths) == true
  {
    assert (requests + [chunk])[..|requests|] == requests;
    assert paths[..|earlier|] == earlier && paths[|earlier|..] == chunk;
  }

  lemma ApplyOneWithin(results: seq<Result>, i: nat, chunk: seq<Path>, source: Origin)
    requires i < |results| && Within(results, chunk)
    ensures results[i].path in Elements(chunk)
    ensures From(results[..i + 1], source) == From(results[..i], source) + [Attempt(results[i], source)]
  {
  }

  lemma PausesTwice(a: map<Path, int>, b: map<Path, int>, c: map<Path, int>, paths: set<Path>)
    requires PausesOnly(a, b, paths) && PausesOnly(b, c, paths)
    ensures PausesOnly(a, c, paths)
  {
  }

  lemma PausesMore(a: map<Path, int>, b: map<Path, int>, c: map<Path, int>, paths: seq<Path>, n: nat, end: nat)
    requires n <= end <= |paths|
    requires PausesOnly(a, b, Elements(paths[..n])) && PausesOnly(b, c, Elements(paths[n..end]))
    ensures PausesOnly(a, c, Elements(paths[..end]))
  {
    assert paths[..end] == paths[..n] + paths[n..end];
  }

  /** The new snapshots are what the attempts of a cycle and its deferrals, in order, make of the old ones. */
  ghost predicate Published(before: map<Path, Snapshot>, after: map<Path, Snapshot>, attempts: seq<Attempt>, now: int, unread: seq<Path>) {
    after == ApplyAll(before, MutationsOf(attempts, now) + Defers(unread))
  }

  // ----- What a poll shows -----

  /** An attempt at `p`, the last one of the cycle. */
  ghost predicate LastAt(attempts: seq<Attempt>, m: int, p: Path) {
    0 <= m < |attempts| && attempts[m].result.path == p && forall j :: m < j < |attempts| ==> attempts[j].result.path != p
  }

  /** The last attempt at `p` that read a value. */
  ghost predicate LastReadAt(attempts: seq<Attempt>, m: int, p: Path) {
    && 0 <= m < |attempts| && attempts[m].result.path == p && attempts[m].result.value.Some?
    && forall j :: m < j < |attempts| && attempts[j].result.path == p ==> attempts[j].result.value.None?
  }

  ghost predicate NeverReads(attempts: seq<Attempt>, p: Path) {
    forall j :: 0 <= j < |attempts| && attempts[j].result.path == p ==> attempts[j].result.value.None?
  }

  /** The value was read just now, and nothing went wrong since. */
  ghost predicate IsFresh(s: Snapshot, value: Value, source: Origin, now: int) {
    && s.resource == value && s.available && s.freshness == Fresh && s.lastSuccess == now && s.lastAttempt == Some(now)
    && s.source == source && s.lastError == None && s.failures == 0
  }

  ghost predicate HasFailed(s: Snapshot, category: string, now: int) {
    !s.available && s.freshness == Stale && s.lastAttempt == Some(now) && s.lastError == Some(category) && s.failures > 0
  }

  /** The same resource as before, from the same time and source. */
  ghost predicate Remembers(s: Snapshot, before: Snapshot) {
    s.resource == before.resource && s.lastSuccess == before.lastSuccess && s.source == before.source
  }

  function Applied(before: map<Path, Snapshot>, attempts: seq<Attempt>, now: int): map<Path, Snapshot> {
    ApplyAll(before, MutationsOf(attempts, now))
  }

  lemma AppliedNext(before: map<Path, Snapshot>, attempts: seq<Attempt>, now: int)
    requires attempts != []
    ensures Applied(before, attempts, now) ==
              Apply(Applied(before, attempts[..|attempts| - 1], now), MutationOf(attempts[|attempts| - 1], now))
  {
    var n := |attempts| - 1;
    assert MutationsOf(attempts, now)[..n] == MutationsOf(attempts[..n], now);
  }

  lemma {:induction false} LastAttemptShows(before: map<Path, Snapshot>, attempts: seq<Attempt>, now: int, m: nat, p: Path)
    requires LastAt(attempts, m, p)
    ensures var after, r := Applied(before, attempts, now), attempts[m].result;
            if r.value.Some? then p in after && IsFresh(after[p], r.value.value, attempts[m].source, now)
            else p in after ==> HasFailed(after[p], r.category, now)
  {
    AppliedNext(before, attempts, now);
    if m < |attempts| - 1 {
      LastAttemptShows(before, attempts[..|attempts| - 1], now, m, p);
    }
  }

  lemma {:induction false} LastReadShows(before: map<Path, Snapshot>, attempts: seq<Attempt>, now: int, m: nat, p: Path)
    requires LastReadAt(attempts, m, p)
    ensures var after := Applied(before, attempts, now);
            p in after && after[p].resource == attempts[m].result.value.value && after[p].lastSuccess == now
            && after[p].source == attempts[m].source
  {
    AppliedNext(before, attempts, now);
    if m < |attempts| - 1 {
      LastReadShows(before, attempts[..|attempts| - 1], now, m, p);
    }
  }

  lemma {:induction false} NoReadShows(before: map<Path, Snapshot>, attempts: seq<Attempt>, now: int, p: Path)
    requires NeverReads(attempts, p)
    ensures var after := Applied(before, attempts, now);
            && (p in after <==> p in before) && (p in after ==> Remembers(after[p], before[p]))
            && (p in after && (forall j :: 0 <= j < |attempts| ==> attempts[j].result.path != p) ==> after[p] == before[p])
  {
    if attempts != [] {
      AppliedNext(before, attempts, now);
      NoReadShows(before, attempts[..|attempts| - 1], now, p);
    }
  }

  /** What a reply says of one path, if anything: a value, or a category of failure. */
  datatype Answer = Read(value: Value) | Failed(category: string)

  ghost predicate LastFor(results: seq<Result>, i: int, p: Path) {
    0 <= i < |results| && results[i].path == p && forall j :: i < j < |results| ==> results[j].path != p
  }

  ghost predicate Says(e: Event, p: Path, a: Answer, source: Origin) {
    match e
    case Single(q, FoundReply(value)) => q == p && a == Read(value) && source == FromFallback
    case Single(q, StatusReply(_, category)) => q == p && a == Failed(category) && source == FromFallback
    case Single(_, _) => false
    case Bulk(_, Items(results)) =>
      && source == FromBatch
      && exists i :: LastFor(results, i, p) && a == if results[i].value.Some? then Read(results[i].value.value) else Failed(results[i].category)
    case Bulk(paths, RateLimitedReply(_)) => p in paths && a == Failed("http_429") && source == FromBatch
    case Bulk(paths, FailedReply(category)) => p in paths && a == Failed(category) && source == FromBatch
    case Bulk(_, AuthenticationReply) => false
  }

  /** A reply that says nothing of a path. */
  ghost predicate Silent(e: Event, p: Path) {
    match e
    case Single(q, reply) => q != p || !(reply.FoundReply? || reply.StatusReply?)
    case Bulk(_, Items(results)) => forall i :: 0 <= i < |results| ==> results[i].path != p
    case Bulk(paths, reply) => p !in paths || reply.AuthenticationReply?
  }

  /** A reply that gives no value of a path. */
  ghost predicate GivesNone(e: Event, p: Path) {
    match e
    case Single(q, reply) => q != p || !reply.FoundReply?
    case Bulk(_, Items(results)) => forall i :: 0 <= i < |results| && results[i].path == p ==> results[i].value.None?
    case Bulk(_, _) => true
  }

  /** The last word about a path in these events. */
  ghost predicate LastSays(events: seq<Event>, k: int, p: Path, a: Answer, source: Origin) {
    0 <= k < |events| && Says(events[k], p, a, source) && forall j :: k < j < |events| ==> Silent(events[j], p)
  }

  ghost predicate AttemptSays(attempts: seq<Attempt>, m: int, p: Path, a: Answer, source: Origin) {
    && LastAt(attempts, m, p) && attempts[m].source == source
    && a == if attempts[m].result.value.Some? then Read(attempts[m].result.value.value) else Failed(attempts[m].result.category)
  }

  lemma SaysAttempt(e: Event, p: Path, a: Answer, source: Origin) returns (m: nat)
    requires Says(e, p, a, source)
    ensures AttemptSays(AttemptsIn(e), m, p, a, source)
  {
    m := 0;
    match e {
      case Single(_, _) =>
      case Bulk(_, Items(results)) =>
        m :| LastFor(results, m, p) && a == if results[m].value.Some? then Read(results[m].value.value) else Failed(results[m].category);
      case Bulk(paths, RateLimitedReply(_)) => m := LastIndex(paths, p);
      case Bulk(paths, FailedReply(_)) => m := LastIndex(paths, p);
    }
  }

  lemma {:induction false} LastIndex(paths: seq<Path>, p: Path) returns (m: nat)
    requires p in paths
    ensures m < |paths| && paths[m] == p && forall j :: m < j < |paths| ==> paths[j] != p
  {
    var n := |paths| - 1;
    if paths[n] == p {
      m := n;
    } else {
      m := LastIndex(paths[..n], p);
    }
  }

  lemma SilentAttempts(e: Event, p: Path)
    ensures Silent(e, p) ==> forall j :: 0 <= j < |AttemptsIn(e)| ==> AttemptsIn(e)[j].result.path != p
    ensures GivesNone(e, p) ==> NeverReads(AttemptsIn(e), p)
  {
  }

  lemma JoinedLast(a: seq<Attempt>, b: seq<Attempt>, m: nat, p: Path, answer: Answer, source: Origin)
    requires if m < |a| then AttemptSays(a, m, p, answer, source) && forall j :: 0 <= j < |b| ==> b[j].result.path != p
             else AttemptSays(b, m - |a|, p, answer, source)
    ensures AttemptSays(a + b, m, p, answer, source) == true
  {
    assert forall j :: |a| <= j < |a + b| ==> (a + b)[j] == b[j - |a|];
  }

  // The last word of the events is the last attempt.
  lemma {:induction false} LastWord(events: seq<Event>, k: nat, p: Path, a: Answer, source: Origin) returns (m: nat)
    requires LastSays(events, k, p, a, source)
    ensures AttemptSays(AttemptsOf(events), m, p, a, source)
  {
    var n := |events| - 1;
    if k == n {
      m := SaysAttempt(events[n], p, a, source);
      m := m + |AttemptsOf(events[..n])|;
    } else {
      m := LastWord(events[..n], k, p, a, source);
      SilentAttempts(events[n], p);
    }
    JoinedLast(AttemptsOf(events[..n]), AttemptsIn(events[n]), m, p, a, source);
  }

  lemma {:induction false} NoWord(events: seq<Event>, p: Path)
    ensures (forall k :: 0 <= k < |events| ==> GivesNone(events[k], p)) ==> NeverReads(AttemptsOf(events), p)
    ensures (forall k :: 0 <= k < |events| ==> Silent(events[k], p)) ==>
              forall j :: 0 <= j < |AttemptsOf(events)| ==> AttemptsOf(events)[j].result.path != p
  {
    if events != [] {
      NoWord(events[..|events| - 1], p);
      SilentAttempts(events[|events| - 1], p);
    }
  }

  /** Deferred or not, the last thing that happened to a path in this cycle. */
  lemma {:induction false} DeferShows(data: map<Path, Snapshot>, unread: seq<Path>, p: Path)
    ensures var after := ApplyAll(data, Defers(unread));
            && (p in after <==> p in data) && (p !in unread && p in after ==> after[p] == data[p])
            && (p in unread && p in after ==>
                  && Remembers(after[p], data[p]) && !after[p].available && after[p].freshness == Stale
                  && after[p].lastAttempt == data[p].lastAttempt && after[p].lastError == Some("poll_deferred")
                  && after[p].failures == data[p].failures)
  {
    if unread != [] {
      var n := |unread| - 1;
      assert Defers(unread)[..n] == Defers(unread[..n]);
      DeferShows(data, unread[..n], p);
    }
  }

  lemma PublishedAs(before: map<Path, Snapshot>, after: map<Path, Snapshot>, attempts: seq<Attempt>, now: int, unread: seq<Path>)
    requires Published(before, after, attempts, now, unread)
    ensures after == ApplyAll(Applied(before, attempts, now), Defers(unread))
  {
    ApplyAllTwice(before, MutationsOf(attempts, now), Defers(unread));
  }

  // What a poll publishes of a path that was not deferred is the last word of its replies: the value it gave, fresh
  // and from now, or its failure.
  lemma LastWordIsPublished(events: seq<Event>, requests: seq<seq<Path>>, attempts: seq<Attempt>, before: map<Path, Snapshot>,
                            after: map<Path, Snapshot>, now: int, unread: seq<Path>, k: nat, p: Path, a: Answer, source: Origin)
    requires Tells(events, requests, attempts) && Published(before, after, attempts, now, unread) && p !in unread
    requires LastSays(events, k, p, a, source)
    ensures a.Read? ==> p in after && IsFresh(after[p], a.value, source, now)
    ensures a.Failed? ==> (p in before ==> p in after) && (p in after ==> HasFailed(after[p], a.category, now))
  {
    PublishedAs(before, after, attempts, now, unread);
    DeferShows(Applied(before, attempts, now), unread, p);
    var m := LastWord(events, k, p, a, source);
    LastAttemptShows(before, attempts, now, m, p);
    if p in before {
      StaysKnown(before, attempts, now, p);
    }
  }

  lemma {:induction false} StaysKnown(before: map<Path, Snapshot>, attempts: seq<Attempt>, now: int, p: Path)
    requires p in before
    ensures p in Applied(before, attempts, now)
  {
    if attempts != [] {
      AppliedNext(before, attempts, now);
      StaysKnown(before, attempts[..|attempts| - 1], now, p);
    }
  }

  // A value outlives the failures that follow it in the same poll.
  lemma ReadIsKept(attempts: seq<Attempt>, before: map<Path, Snapshot>, after: map<Path, Snapshot>, now: int, unread: seq<Path>,
                   m: nat, p: Path)
    requires Published(before, after, attempts, now, unread) && LastReadAt(attempts, m, p)
    ensures p in after && after[p].resource == attempts[m].result.value.value && after[p].lastSuccess == now
            && after[p].source == attempts[m].source
  {
    PublishedAs(before, after, attempts, now, unread);
    DeferShows(Applied(before, attempts, now), unread, p);
    LastReadShows(before, attempts, now, m, p);
  }

  // Where no reply gave a value, the resource is the one from before; where none said anything, so is the snapshot,
  // unless it is deferred.
  lemma UnreadIsRemembered(events: seq<Event>, requests: seq<seq<Path>>, attempts: seq<Attempt>, before: map<Path, Snapshot>,
                           after: map<Path, Snapshot>, now: int, unread: seq<Path>, p: Path)
    requires Tells(events, requests, attempts) && Published(before, after, attempts, now, unread)
    requires forall k :: 0 <= k < |events| ==> GivesNone(events[k], p)
    ensures (p in after <==> p in before) && (p in after ==> Remembers(after[p], before[p]))
    ensures p in after && (forall k :: 0 <= k < |events| ==> Silent(events[k], p)) ==>
              if p in unread then !after[p].available && after[p].lastError == Some("poll_deferred") && after[p].failures == before[p].failures
                                  && after[p].lastAttempt == before[p].lastAttempt
              else after[p] == before[p]
  {
    PublishedAs(before, after, attempts, now, unread);
    DeferShows(Applied(before, attempts, now), unread, p);
    NoWord(events, p);
    NoReadShows(before, attempts, now, p);
  }

  lemma SettlesCircuit(read: Cloud, after: Cloud, g: Progress, outcome: Outcome, now: int)
    requires outcome == Unusable || outcome == Refreshed
    requires outcome == Unusable ==> after == if g.gatewayFailure then read.GatewayFailed(now) else read
    requires outcome == Refreshed ==> after == if Successes(g.attempts) == 0 then read else read.Recovered()
    ensures CircuitStep(read, after, outcome, Successes(g.attempts), g.gatewayFailure, now)
  {
  }

  lemma SettlesFrom(before: Cloud, read: Cloud, after: Cloud, outcome: Outcome, successes: nat, suspect: bool, now: int)
    requires read.SameCircuit(before) && CircuitStep(read, after, outcome, successes, suspect, now)
    ensures CircuitStep(before, after, outcome, successes, suspect, now) == true
  {
  }

  lemma IdleEnds(before: View, c: Cycle, next: map<Group, int>)
    requires c.paths == [] && c.attempted == 0 && c.requests == [] && AdvancesOnly(before.next, c.advanced, next)
    ensures Ends(before, c, before.(next := next))
  {
  }

  lemma RestIsQuiet(before: View, now: int)
    ensures Follows(before, Rests([], now), before)
  {
  }

  // A cycle that reads what was due, once run-out pauses were forgotten, is a step from where it began.
  lemma StepFollows(before: View, mid: View, step: Step, after: View)
    requires mid == before.(pauses := mid.pauses) && PausesOnly(before.pauses, mid.pauses, {})
    requires step.Executes? ==>
               Ends(mid, step.cycle, after) && AreDue(step.cycle.paths, before, step.cycle.groups, step.cycle.byGroup, step.cycle.now)
    requires step.Rests? ==> Quiet(mid, step.requests, step.at, after)
    ensures Follows(before, step, after)
  {
    SameFrom(before, mid, step, after);
  }

  lemma AbortIsQuiet(before: View, requests: seq<seq<Path>>, read: seq<Path>, now: int, after: View)
    requires after == before.(pauses := after.pauses)
    requires Chunked(requests, read) == true && PausesOnly(before.pauses, after.pauses, Elements(read)) == true
    ensures Quiet(before, requests, now, after) == true
  {
    ChunkedIsFlat(requests, read);
  }

  lemma CycleEnds(before: View, c: Cycle, next: map<Group, int>, pauses: map<Path, int>)
    requires c.paths != [] && Min(MAX_BULK_PATHS, |c.paths|) <= c.attempted <= |c.paths|
    requires Chunked(c.requests, c.paths[..c.attempted]) && PausesOnly(before.pauses, pauses, Elements(c.paths[..c.attempted]))
    requires AdvancesOnly(before.next, c.advanced, next)
    requires forall h :: h in c.advanced ==> AllDone(c.byGroup, h, Elements(c.paths), Elements(c.paths[..c.attempted]))
    ensures Ends(before, c, View(c.paths[c.attempted..], next, pauses))
  {
    forall g, p | g in c.advanced && p in PathsOf(c.byGroup, g) && p in c.paths ensures p in c.paths[..c.attempted] {
      assert AllDone(c.byGroup, g, Elements(c.paths), Elements(c.paths[..c.attempted]));
    }
  }

  // Local path errors do not fail a cycle.
  predicate Tolerable(r: Result) {
    r.IsOk() || r.status == Some(403) || r.status == Some(404) || r.status == Some(406)
  }

  /** Unread paths keep their attempt time and counters, but their value is no longer current. */
  function Defers(paths: seq<Path>): seq<Mutation> {
    seq(|paths|, i requires 0 <= i < |paths| => Defer(paths[i]))
  }

  function RecoverablePaths(results: seq<Result>): seq<Path> {
    if results == [] then []
    else RecoverablePaths(results[..|results| - 1])
         + if results[|results| - 1].Recoverable() then [results[|results| - 1].path] else []
  }

  lemma WithinNext(results: seq<Result>, paths: seq<Path>, i: nat, reply: SingleReply)
    requires i < |paths| && Within(results, paths)
    ensures Within(results + Recorded(paths[i], reply), paths)
  {
  }

  lemma WithinMore(results: seq<Result>, selected: seq<Path>, from: seq<Path>, chunk: seq<Path>)
    requires Within(results, selected) && selected <= from && forall p :: p in from ==> p in chunk
    ensures Within(results, chunk)
  {
    forall p | p in selected ensures p in from {
      var i :| 0 <= i < |selected| && selected[i] == p;
      assert from[i] == p;
    }
  }

  lemma {:induction false} RecoverableWithin(results: seq<Result>, chunk: seq<Path>)
    requires Within(results, chunk)
    ensures forall p :: p in RecoverablePaths(results) ==> p in chunk
  {
    if results != [] {
      RecoverableWithin(results[..|results| - 1], chunk);
    }
  }

  predicate ManualActive(mode: Path, snapshots: map<Path, Snapshot>) {
    mode in snapshots && snapshots[mode].available && snapshots[mode].freshness == Fresh
    && snapshots[mode].resource.text == "manual"
  }
}
