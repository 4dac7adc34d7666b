/**
  Supplementary start-up reads (startup_data.py): the retry state of one read, and the reads of one
  gateway under a shared budget of distinct paths. Times are whole seconds of the monotonic clock.
  On `P(x) == true` in contracts see Common.dfy.
 */
module StartupData {
  import opened Common

  const LICENSE_PATH := Path("/gateway/thirdPartyLicenseInformation")
  const RECOVERY_INTERVAL_SECONDS: int := 60
  const MAX_STARTUP_PATHS: nat := 512

  /** The delay after the `failures`-th failure in a row, capped at the last entry. */
  function RetryDelay(failures: nat): int {
    if failures <= 1 then 60 else if failures == 2 then 120 else if failures == 3 then 300
    else if failures == 4 then 900 else 1800
  }

  /** Which paths the reviewed tables recognize (`is_startup_path`, `is_startup_entity_path`). */
  datatype Catalog = Catalog(isStartup: Path -> bool, isEntity: Path -> bool)

  /** A reply's resource; `scalar` says that the value passes the expected scalar schema. */
  datatype Resource = Resource(path: Path, references: seq<Path>, writable: bool, scalar: bool)

  datatype Category =
    | Forbidden | NotFound | NotAcceptable | RateLimit | Timeout | Unavailable
    | Authentication | Cancelled | InvalidValue | MissingResult | RequestFailed | Unknown

  datatype State =
    | Pending | Reading | Success | NormalResource | Unsupported
    | ResourceLimit | DepthLimit | BudgetWait | Failing(category: Category)

  /** Everything known of the read of one path; `nextAttempt` is the earliest time of the next request. */
  datatype Read = Read(path: Path, depth: int, advertised: bool, registered: bool, active: bool,
                       attempts: nat, failures: nat, state: State, nextAttempt: int, resource: Option<Resource>)
  {
    predicate IsPending() {
      active && !(state.Success? || state.NormalResource? || state.Unsupported? || state.ResourceLimit? || state.DepthLimit?)
    }

    predicate IsDue(now: int) { IsPending() && nextAttempt <= now }

    function Start(): Read { this.(attempts := attempts + 1, state := Reading) }

    function Failed(category: Category, now: int, catalog: Catalog): Read {
      var local := category.Forbidden? || category.NotFound? || category.NotAcceptable?;
      if local && !registered && !(advertised && catalog.isEntity(path)) then
        this.(failures := failures + 1, state := Unsupported)
      else
        this.(failures := failures + 1, state := Failing(category),
              nextAttempt := now + if local then 1800 else RetryDelay(failures + 1))
    }

    function Received(reply: Resource, now: int, catalog: Catalog): Read {
      if !catalog.isStartup(reply.path) || reply.references != [] || reply.writable then
        this.(state := NormalResource, resource := Some(reply), failures := 0, nextAttempt := 0)
      else if reply.scalar then
        this.(state := Success, resource := Some(reply), failures := 0, nextAttempt := 0)
      else Failed(InvalidValue, now, catalog)
    }

    // Each discovery rechecks membership; a structural surprise starts over.
    function Rejoined(): Read {
      if state == NormalResource then this.(active := registered, resource := None, state := Pending, nextAttempt := 0)
      else this.(active := registered)
    }

    function Scheduled(newDepth: int, adv: bool, reg: bool, maximumDepth: int): Read {
      var read := this.(depth := Min(newDepth, depth), advertised := advertised || adv,
                        registered := registered || reg, active := true);
      if read.depth > maximumDepth && attempts == 0 then read.(state := DepthLimit)
      else if state == DepthLimit then read.(state := Pending)
      else read
    }

    function Deferred(now: int): Read {
      if IsDue(now) && state != Reading then
        this.(state := BudgetWait, nextAttempt := now + RECOVERY_INTERVAL_SECONDS)
      else this
    }
  }

  /** What a reply must be to be kept: an ordinary resource, or a scalar of the expected schema. */
  predicate Usable(r: Resource, catalog: Catalog) {
    r.references != [] || r.writable || r.scalar || !catalog.isStartup(r.path)
  }

  lemma AcceptsUsable(r: Read, reply: Resource, now: int, catalog: Catalog)
    ensures r.Received(reply, now, catalog).state.Success? || r.Received(reply, now, catalog).state.NormalResource?
            <==> Usable(reply, catalog)
  {
  }

  function NewRead(path: Path, depth: int): Read {
    Read(path, depth, false, false, true, 0, 0, Pending, 0, None)
  }

  /** Everything that can happen to one read. */
  datatype Step =
    | Start(at: int)
    | Fail(category: Category, at: int)
    | Receive(reply: Resource, at: int)
    | Rejoin
    | Schedule(depth: int, advertised: bool, registered: bool, maximumDepth: int)
    | Postpone(at: int)
    | LeaveOut

  function Apply(r: Read, s: Step, catalog: Catalog): (after: Read)
    ensures after.path == r.path
  {
    match s
    case Start(_) => r.Start()
    case Fail(category, at) => r.Failed(category, at, catalog)
    case Receive(reply, at) => r.Received(reply, at, catalog)
    case Rejoin => r.Rejoined()
    case Schedule(depth, adv, reg, bound) => r.Scheduled(depth, adv, reg, bound)
    case Postpone(at) => r.Deferred(at)
    case LeaveOut => r.(state := ResourceLimit)
  }

  ghost predicate Timed(s: Step) { s.Start? || s.Fail? || s.Receive? || s.Postpone? }

  /** Requests start when due, outcomes belong to a request, and time does not run backwards. */
  ghost predicate Allowed(r: Read, s: Step, clock: int) {
    && (Timed(s) ==> s.at >= clock)
    && (s.Start? ==> r.IsDue(s.at))
    && (s.Fail? || s.Receive? ==> r.state == Reading)
    && (s.LeaveOut? ==> r.IsPending())
  }

  /** The read and the latest time after a history. */
  ghost function Replay(r: Read, steps: seq<Step>, catalog: Catalog): Read {
    if steps == [] then r else Apply(Replay(r, steps[..|steps| - 1], catalog), steps[|steps| - 1], catalog)
  }

  ghost function Clock(steps: seq<Step>): int {
    if steps == [] then 0
    else if Timed(steps[|steps| - 1]) then steps[|steps| - 1].at
    else Clock(steps[..|steps| - 1])
  }

  ghost predicate Legal(r: Read, steps: seq<Step>, catalog: Catalog) {
    steps == [] || (var front := steps[..|steps| - 1];
                    Legal(r, front, catalog) && Allowed(Replay(r, front, catalog), steps[|steps| - 1], Clock(front)))
  }

  ghost predicate Fails(r: Read, s: Step, catalog: Catalog) {
    s.Fail? || (s.Receive? && Apply(r, s, catalog).state == Failing(InvalidValue))
  }

  /** How often the read has failed since it was last accepted. */
  ghost function FailuresInARow(r: Read, steps: seq<Step>, catalog: Catalog): nat {
    if steps == [] then 0
    else
      var front, last := steps[..|steps| - 1], steps[|steps| - 1];
      if Fails(Replay(r, front, catalog), last, catalog) then FailuresInARow(r, front, catalog) + 1
      else if last.Receive? then 0 else FailuresInARow(r, front, catalog)
  }

  lemma {:induction false} CountsFailuresInARow(path: Path, depth: int, steps: seq<Step>, catalog: Catalog)
    ensures Replay(NewRead(path, depth), steps, catalog).failures == FailuresInARow(NewRead(path, depth), steps, catalog)
  {
    if steps != [] {
      var front, last := steps[..|steps| - 1], steps[|steps| - 1];
      CountsFailuresInARow(path, depth, front, catalog);
      FailureCount(Replay(NewRead(path, depth), front, catalog), last, catalog);
    }
  }

  lemma FailureCount(r: Read, s: Step, catalog: Catalog)
    ensures Apply(r, s, catalog).failures ==
              if Fails(r, s, catalog) then r.failures + 1 else if s.Receive? then 0 else r.failures
  {
  }

  // ----- What a read tells of its history -----

  predicate IsLocal(category: Category) { category in [Forbidden, NotFound, NotAcceptable] }

  const RETRY_DELAYS: seq<int> := [60, 120, 300, 900, 1800]

  /** The read waits after a failure at this time: half an hour after a local error, else for the delay of its latest failure. */
  ghost predicate WaitsAfter(r: Read, category: Category, at: int) {
    && r.state == Failing(category) && r.failures >= 1
    && r.nextAttempt == at + if IsLocal(category) then 1800 else RETRY_DELAYS[Min(r.failures, 5) - 1]
  }

  // A failure gives the path up only after a local error of a read that no sensor needs; else it waits.
  lemma FailsExactly(r: Read, category: Category, now: int, catalog: Catalog)
    ensures var failed := r.Failed(category, now, catalog);
            && failed == r.(failures := r.failures + 1, state := failed.state, nextAttempt := failed.nextAttempt)
            && (if IsLocal(category) && !r.registered && (!r.advertised || !catalog.isEntity(r.path))
                then failed.state == Unsupported && failed.nextAttempt == r.nextAttempt
                else WaitsAfter(failed, category, now))
  {
  }

  // A reply succeeds if it is the read-only scalar of a reviewed path; of another structure it is kept as an ordinary resource.
  lemma ReceivesExactly(r: Read, reply: Resource, now: int, catalog: Catalog)
    ensures var received := r.Received(reply, now, catalog);
            && (received.state == Success <==> catalog.isStartup(reply.path) && reply.references == [] && !reply.writable && reply.scalar)
            && (received.state == NormalResource <==> !catalog.isStartup(reply.path) || reply.references != [] || reply.writable)
            && (Usable(reply, catalog) ==>
                  received == r.(state := received.state, resource := Some(reply), failures := 0, nextAttempt := 0))
            && (!Usable(reply, catalog) ==> received == r.Failed(InvalidValue, now, catalog))
  {
  }

  // A read may be requested unless its path is inactive, was accepted, given up, or does not fit a bound.
  lemma DueExactly(r: Read, now: int)
    ensures r.IsDue(now) <==>
              r.active && r.nextAttempt <= now && (r.state in [Pending, Reading, BudgetWait] || r.state.Failing?)
  {
  }

  // Scheduling holds back what lies too deep and was never requested, and releases what no longer does.
  lemma SchedulesExactly(r: Read, depth: int, advertised: bool, registered: bool, maximumDepth: int)
    ensures var after := r.Scheduled(depth, advertised, registered, maximumDepth);
            && after.failures == r.failures && after.nextAttempt == r.nextAttempt
            && (after.state == DepthLimit <==> after.depth > maximumDepth && r.attempts == 0)
            && (after.state != DepthLimit ==> after.state == if r.state == DepthLimit then Pending else r.state)
  {
  }

  // A new set-up keeps outcomes and deadlines, except that an ordinary resource is read anew.
  lemma RejoinsExactly(r: Read)
    ensures r.state == NormalResource ==>
              r.Rejoined().state == Pending && r.Rejoined().nextAttempt == 0 && r.Rejoined().resource == None
    ensures r.state != NormalResource ==>
              r.Rejoined().state == r.state && r.Rejoined().nextAttempt == r.nextAttempt && r.Rejoined().resource == r.resource
    ensures r.Rejoined().failures == r.failures
  {
  }

  // A new read may be requested at once, and nothing is known of it.
  lemma NewExactly(path: Path, depth: int, now: int)
    ensures NewRead(path, depth).IsDue(now) <==> now >= 0
    ensures NewRead(path, depth).attempts == 0 && NewRead(path, depth).failures == 0 && NewRead(path, depth).resource == None
    ensures !NewRead(path, depth).advertised && !NewRead(path, depth).registered
  {
  }

  // Of the reads that are due, those not in flight wait one more minute; no failure is counted.
  lemma DefersExactly(r: Read, now: int)
    ensures r.Deferred(now) == r.(state := r.Deferred(now).state, nextAttempt := r.Deferred(now).nextAttempt)
    ensures if r.IsDue(now) && !r.state.Reading? then r.Deferred(now).state == BudgetWait && r.Deferred(now).nextAttempt == now + 60
            else r.Deferred(now) == r
  {
  }

  ghost predicate Schedules(steps: seq<Step>, i: int) { 0 <= i < |steps| && steps[i].Schedule? }

  ghost function Starts(steps: seq<Step>): nat {
    if steps == [] then 0 else Starts(steps[..|steps| - 1]) + if steps[|steps| - 1].Start? then 1 else 0
  }

  ghost predicate IsAdvertised(steps: seq<Step>) { exists i :: Schedules(steps, i) && steps[i].advertised }

  ghost predicate IsRegistered(steps: seq<Step>) { exists i :: Schedules(steps, i) && steps[i].registered }

  /** The depth is the least one under which the path was reported. */
  ghost predicate IsLeastDepth(r: Read, depth: int, steps: seq<Step>) {
    && r.depth <= depth && (forall i :: Schedules(steps, i) ==> r.depth <= steps[i].depth)
    && (r.depth == depth || exists i :: Schedules(steps, i) && r.depth == steps[i].depth)
  }

  /** The path belongs to the present set-up: reported since it began, or registered before. */
  ghost function IsMember(steps: seq<Step>): bool {
    if steps == [] then true
    else if steps[|steps| - 1].Schedule? then true
    else if steps[|steps| - 1].Rejoin? then IsRegistered(steps[..|steps| - 1])
    else IsMember(steps[..|steps| - 1])
  }

  // What a read says of itself is what happened to it.
  lemma {:induction false} TellsItsHistory(path: Path, depth: int, steps: seq<Step>, catalog: Catalog)
    ensures var r := Replay(NewRead(path, depth), steps, catalog);
            && r.path == path && r.attempts == Starts(steps) && IsLeastDepth(r, depth, steps) == true
            && (r.advertised <==> IsAdvertised(steps)) && (r.registered <==> IsRegistered(steps)) && (r.active <==> IsMember(steps))
  {
    if steps != [] {
      var front, last := steps[..|steps| - 1], steps[|steps| - 1];
      TellsItsHistory(path, depth, front, catalog);
      TellsNext(Replay(NewRead(path, depth), front, catalog), depth, front, last, catalog);
      assert steps == front + [last];
    }
  }

  lemma TellsNext(r: Read, depth: int, steps: seq<Step>, s: Step, catalog: Catalog)
    requires r.attempts == Starts(steps) && IsLeastDepth(r, depth, steps) == true && (r.active <==> IsMember(steps))
    requires r.advertised <==> IsAdvertised(steps)
    requires r.registered <==> IsRegistered(steps)
    ensures var after, longer := Apply(r, s, catalog), steps + [s];
            && after.attempts == Starts(longer) && IsLeastDepth(after, depth, longer) == true
            && (after.advertised <==> IsAdvertised(longer)) && (after.registered <==> IsRegistered(longer))
            && (after.active <==> IsMember(longer))
  {
    assert (steps + [s])[..|steps|] == steps;
    MarksNext(steps, s);
    if s.Schedule? {
      DepthNext(r, Apply(r, s, catalog), depth, steps, s);
    } else {
      DepthStays(r, Apply(r, s, catalog), depth, steps, s);
    }
  }

  lemma MarksNext(steps: seq<Step>, s: Step)
    ensures IsAdvertised(steps + [s]) <==> IsAdvertised(steps) || (s.Schedule? && s.advertised)
    ensures IsRegistered(steps + [s]) <==> IsRegistered(steps) || (s.Schedule? && s.registered)
  {
    var longer := steps + [s];
    assert s.Schedule? ==> Schedules(longer, |steps|) && longer[|steps|] == s;
    assert forall i :: Schedules(steps, i) ==> Schedules(longer, i) && longer[i] == steps[i];
    assert forall i :: Schedules(longer, i) ==> i == |steps| || (Schedules(steps, i) && longer[i] == steps[i]);
  }

  lemma DepthNext(r: Read, after: Read, depth: int, steps: seq<Step>, s: Step)
    requires IsLeastDepth(r, depth, steps) && s.Schedule? && after.depth == Min(s.depth, r.depth)
    ensures IsLeastDepth(after, depth, steps + [s])
  {
    var longer := steps + [s];
    assert Schedules(longer, |steps|) && longer[|steps|] == s;
    assert forall i :: Schedules(steps, i) ==> Schedules(longer, i) && longer[i] == steps[i];
    forall i | Schedules(longer, i) ensures after.depth <= longer[i].depth {
      assert i < |steps| ==> Schedules(steps, i) && longer[i] == steps[i];
    }
  }

  lemma DepthStays(r: Read, after: Read, depth: int, steps: seq<Step>, s: Step)
    requires IsLeastDepth(r, depth, steps) && !s.Schedule? && after.depth == r.depth
    ensures IsLeastDepth(after, depth, steps + [s])
  {
    var longer := steps + [s];
    assert forall i :: Schedules(steps, i) ==> Schedules(longer, i) && longer[i] == steps[i];
    assert forall i :: Schedules(longer, i) ==> Schedules(steps, i) && longer[i] == steps[i];
  }

  /** What a state keeps of its past: a request in flight or a structural surprise has no open deadline. */
  ghost predicate Sound(r: Read, clock: int) {
    && clock >= 0
    && (r.state == Reading || r.state == Success || r.state == NormalResource || r.state == Unsupported ==> r.attempts >= 1)
    && (r.state == Reading || r.state == NormalResource ==> r.nextAttempt <= clock)
  }

  lemma {:induction false} LegalIsSound(path: Path, depth: int, steps: seq<Step>, catalog: Catalog)
    requires Legal(NewRead(path, depth), steps, catalog)
    ensures Sound(Replay(NewRead(path, depth), steps, catalog), Clock(steps))
  {
    if steps != [] {
      var front := steps[..|steps| - 1];
      LegalIsSound(path, depth, front, catalog);
      AllowedIsSound(Replay(NewRead(path, depth), front, catalog), steps[|front|], Clock(front), catalog);
    }
  }

  lemma AllowedIsSound(r: Read, s: Step, clock: int, catalog: Catalog)
    requires Sound(r, clock) && Allowed(r, s, clock)
    ensures Sound(Apply(r, s, catalog), if Timed(s) then s.at else clock)
  {
  }

  /** No start before `bound`: the deadline or the clock has reached it, or the path was given up. */
  ghost predicate HeldBack(r: Read, clock: int, bound: int) {
    r.attempts >= 1 && (r.state == Unsupported || Max(r.nextAttempt, clock) >= bound)
  }

  lemma HeldBackByFailure(r: Read, s: Step, clock: int, catalog: Catalog)
    requires Sound(r, clock) && Allowed(r, s, clock) && Fails(r, s, catalog)
    ensures var failed := Apply(r, s, catalog); HeldBack(failed, s.at, s.at + RetryDelay(failed.failures))
  {
  }

  lemma HeldBackStep(r: Read, s: Step, clock: int, bound: int, catalog: Catalog)
    requires Sound(r, clock) && HeldBack(r, clock, bound) && Allowed(r, s, clock)
    ensures HeldBack(Apply(r, s, catalog), if Timed(s) then s.at else clock, bound)
    ensures s.Start? ==> s.at >= bound
  {
  }

  // After the k-th failure in a row, every later start keeps the k-th (capped) delay.
  lemma {:induction false} StartsKeepDelay(path: Path, depth: int, steps: seq<Step>, catalog: Catalog, i: nat, j: nat)
    requires Legal(NewRead(path, depth), steps, catalog)
    requires i < j < |steps| && steps[j].Start?
    requires Fails(Replay(NewRead(path, depth), steps[..i], catalog), steps[i], catalog)
    ensures steps[j].at >= steps[i].at + RetryDelay(FailuresInARow(NewRead(path, depth), steps[..i + 1], catalog))
  {
    LegalPrefix(NewRead(path, depth), steps, catalog, j + 1);
    var past, bound := steps[..j], steps[i].at + RetryDelay(Replay(NewRead(path, depth), steps[..i + 1], catalog).failures);
    assert steps[..j + 1][..j] == past && past[..i] == steps[..i] && past[..i + 1] == steps[..i + 1];
    HeldBackUntil(path, depth, past, catalog, i, bound);
    LegalIsSound(path, depth, past, catalog);
    CountsFailuresInARow(path, depth, steps[..i + 1], catalog);
    HeldBackStep(Replay(NewRead(path, depth), past, catalog), steps[j], Clock(past), bound, catalog);
  }

  lemma {:induction false} HeldBackUntil(path: Path, depth: int, steps: seq<Step>, catalog: Catalog, i: nat, bound: int)
    requires Legal(NewRead(path, depth), steps, catalog) && i < |steps|
    requires Fails(Replay(NewRead(path, depth), steps[..i], catalog), steps[i], catalog)
    requires bound == steps[i].at + RetryDelay(Replay(NewRead(path, depth), steps[..i + 1], catalog).failures)
    ensures HeldBack(Replay(NewRead(path, depth), steps, catalog), Clock(steps), bound)
  {
    var front, last := steps[..|steps| - 1], steps[|steps| - 1];
    LegalIsSound(path, depth, front, catalog);
    assert front[..i] == steps[..i];
    if |front| == i {
      assert steps[..i + 1] == steps;
      HeldBackByFailure(Replay(NewRead(path, depth), front, catalog), last, Clock(front), catalog);
    } else {
      assert front[..i + 1] == steps[..i + 1];
      HeldBackUntil(path, depth, front, catalog, i, bound);
      HeldBackStep(Replay(NewRead(path, depth), front, catalog), last, Clock(front), bound, catalog);
    }
  }

  lemma {:induction false} LegalPrefix(r: Read, steps: seq<Step>, catalog: Catalog, n: nat)
    requires Legal(r, steps, catalog) && n <= |steps|
    ensures Legal(r, steps[..n], catalog)
  {
    if n < |steps| {
      LegalPrefix(r, steps[..|steps| - 1], catalog, n);
      assert steps[..|steps| - 1][..n] == steps[..n];
    } else {
      assert steps[..n] == steps;
    }
  }

  lemma SuccessStays(r: Read, s: Step, clock: int, catalog: Catalog)
    requires Sound(r, clock) && Allowed(r, s, clock) && r.state == Success
    ensures Apply(r, s, catalog).state == Success && !s.Start?
  {
  }

  lemma {:induction false} SuccessPersists(path: Path, depth: int, steps: seq<Step>, catalog: Catalog, i: nat)
    requires Legal(NewRead(path, depth), steps, catalog) && i <= |steps|
    requires Replay(NewRead(path, depth), steps[..i], catalog).state == Success
    ensures Replay(NewRead(path, depth), steps, catalog).state == Success
  {
    if i == |steps| {
      assert steps[..i] == steps;
    } else {
      var front := steps[..|steps| - 1];
      assert front[..i] == steps[..i];
      SuccessPersists(path, depth, front, catalog, i);
      LegalIsSound(path, depth, front, catalog);
      SuccessStays(Replay(NewRead(path, depth), front, catalog), steps[|front|], Clock(front), catalog);
    }
  }

  // A read that reached success stays there, and is never started again.
  lemma SuccessIsFinal(path: Path, depth: int, steps: seq<Step>, catalog: Catalog, i: nat)
    requires Legal(NewRead(path, depth), steps, catalog) && i <= |steps|
    requires Replay(NewRead(path, depth), steps[..i], catalog).state == Success
    ensures Replay(NewRead(path, depth), steps, catalog).state == Success
    ensures forall j :: i <= j < |steps| ==> !steps[j].Start?
  {
    SuccessPersists(path, depth, steps, catalog, i);
    forall j | i <= j < |steps| ensures !steps[j].Start? {
      NotStarted(path, depth, steps, catalog, i, j);
    }
  }

  lemma NotStarted(path: Path, depth: int, steps: seq<Step>, catalog: Catalog, i: nat, j: nat)
    requires Legal(NewRead(path, depth), steps, catalog) && i <= j < |steps|
    requires Replay(NewRead(path, depth), steps[..i], catalog).state == Success
    ensures !steps[j].Start?
  {
    var past := steps[..j];
    LegalAt(NewRead(path, depth), steps, catalog, j);
    assert past[..i] == steps[..i];
    SuccessPersists(path, depth, past, catalog, i);
    LegalIsSound(path, depth, past, catalog);
    SuccessStays(Replay(NewRead(path, depth), past, catalog), steps[j], Clock(past), catalog);
  }

  lemma LegalAt(r: Read, steps: seq<Step>, catalog: Catalog, j: nat)
    requires Legal(r, steps, catalog) && j < |steps|
    ensures Legal(r, steps[..j], catalog) == true
    ensures Allowed(Replay(r, steps[..j], catalog), steps[j], Clock(steps[..j])) == true
  {
    LegalPrefix(r, steps, catalog, j + 1);
    assert steps[..j + 1][..j] == steps[..j];
  }

  /** The order in which due reads are considered: unexpected children first, then the oldest deadline. */
  predicate Earlier(catalog: Catalog, a: Read, b: Read) {
    if catalog.isStartup(a.path) == catalog.isStartup(b.path) then a.nextAttempt <= b.nextAttempt
    else !catalog.isStartup(a.path)
  }

  function InOrder(catalog: Catalog): (Read, Read) -> bool { (a, b) => Earlier(catalog, a, b) }

  function ReadsOf(table: map<Path, Read>, order: seq<Path>): (r: seq<Read>)
    requires forall p :: p in order ==> p in table
  {
    seq(|order|, i requires 0 <= i < |order| => table[order[i]])
  }

  ghost predicate Indexed(table: map<Path, Read>, order: seq<Path>) {
    NoRepeats(order) && table.Keys == Elements(order) && forall p :: p in table ==> table[p].path == p
  }

  // Sorting the reads neither loses nor duplicates one.
  lemma QueueHoldsEachRead(catalog: Catalog, table: map<Path, Read>, order: seq<Path>)
    requires Indexed(table, order)
    ensures var q := Sort(ReadsOf(table, order), InOrder(catalog));
            && (forall i, j :: 0 <= i < j < |q| ==> q[i].path != q[j].path && Earlier(catalog, q[i], q[j]))
            && (forall i :: 0 <= i < |q| ==> q[i].path in table && q[i] == table[q[i].path])
            && (forall p :: p in table ==> table[p] in q)
  {
    var all, leq := ReadsOf(table, order), InOrder(catalog);
    var q := Sort(all, leq);
    ReadsOnce(table, order);
    SortCorrect(all, leq);
    SortKeepsDistinct(all, leq);
    forall i | 0 <= i < |q| ensures q[i].path in table && q[i] == table[q[i].path] {
      assert q[i] in q && q[i] in all;
    }
    forall i, j | 0 <= i < j < |q| ensures Earlier(catalog, q[i], q[j]) {
      assert leq(q[i], q[j]);
    }
  }

  // The reads are those of the table, each once.
  lemma ReadsOnce(table: map<Path, Read>, order: seq<Path>)
    requires Indexed(table, order)
    ensures var all := ReadsOf(table, order);
            && NoRepeats(all) && (forall r :: r in all ==> r.path in table && r == table[r.path])
            && (forall p :: p in table ==> table[p] in all)
  {
    var all := ReadsOf(table, order);
    forall p | p in table ensures table[p] in all {
      var k :| 0 <= k < |order| && order[k] == p;
      assert all[k] == table[p];
    }
    forall k | 0 <= k < |order| ensures all[k].path == order[k] && all[k] == table[order[k]] {
      assert order[k] in Elements(order);
    }
  }

  ghost predicate DistinctPaths(queue: seq<Read>) {
    forall i, j :: 0 <= i < j < |queue| ==> queue[i].path != queue[j].path
  }

  /** The paths read now and those left out for good; `spent` of the former were never requested before. */
  datatype Selection = Selection(paths: seq<Path>, leftOut: seq<Path>, spent: nat)

  /** The selection among the first `n` reads of the queue, with room for further distinct paths. */
  function Select(queue: seq<Read>, n: nat, requested: set<Path>, room: nat, now: int, limit: nat): (r: Selection)
    requires n <= |queue|
  {
    if n == 0 then Selection([], [], 0)
    else
      var r, read := Select(queue, n - 1, requested, room, now, limit), queue[n - 1];
      if |r.paths| >= limit || !read.IsDue(now) then r
      else if read.path in requested then r.(paths := r.paths + [read.path])
      else if r.spent < room then r.(paths := r.paths + [read.path], spent := r.spent + 1)
      else r.(leftOut := r.leftOut + [read.path])
  }

  ghost predicate DueAmong(queue: seq<Read>, n: nat, now: int, p: Path) {
    exists d :: 0 <= d < n && d < |queue| && queue[d].path == p && queue[d].IsDue(now)
  }

  lemma DueAmongNext(queue: seq<Read>, n: nat, now: int, p: Path)
    requires 0 < n <= |queue| && DistinctPaths(queue) && DueAmong(queue, n - 1, now, p)
    ensures DueAmong(queue, n, now, p) && p != queue[n - 1].path
  {
    var d :| 0 <= d < n - 1 && queue[d].path == p && queue[d].IsDue(now);
  }

  // Only due reads are selected, each at most once, and only unpaid ones are left out.
  lemma {:induction false} SelectsDue(queue: seq<Read>, n: nat, requested: set<Path>, room: nat, now: int, limit: nat)
    requires n <= |queue| && DistinctPaths(queue)
    ensures var r := Select(queue, n, requested, room, now, limit);
            && |r.paths| <= limit && NoRepeats(r.paths) && NoRepeats(r.leftOut)
            && (forall p :: p in r.paths ==> DueAmong(queue, n, now, p) && p !in r.leftOut)
            && (forall p :: p in r.leftOut ==> DueAmong(queue, n, now, p) && p !in requested)
  {
    if n > 0 {
      SelectsDue(queue, n - 1, requested, room, now, limit);
      var r, last := Select(queue, n - 1, requested, room, now, limit), queue[n - 1];
      forall p | DueAmong(queue, n - 1, now, p) ensures DueAmong(queue, n, now, p) && p != last.path {
        DueAmongNext(queue, n, now, p);
      }
      assert last.IsDue(now) ==> DueAmong(queue, n, now, last.path);
    }
  }

  // A selection pays for every new path, and leaves one out only when the budget is spent.
  lemma {:induction false} SelectSpends(queue: seq<Read>, n: nat, requested: set<Path>, room: nat, now: int, limit: nat)
    requires n <= |queue| && DistinctPaths(queue)
    ensures var r := Select(queue, n, requested, room, now, limit);
            && |requested + Elements(r.paths)| == |requested| + r.spent && r.spent <= room
            && (r.leftOut != [] ==> r.spent == room)
  {
    if n == 0 {
      assert requested + Elements<Path>([]) == requested;
    } else {
      SelectSpends(queue, n - 1, requested, room, now, limit);
      SelectsDue(queue, n - 1, requested, room, now, limit);
      var r, p := Select(queue, n - 1, requested, room, now, limit), queue[n - 1].path;
      assert p !in r.paths by {
        assert !DueAmong(queue, n - 1, now, p);
      }
      AddOne(requested, r.paths, p);
    }
  }

  // Nothing due is passed over, except that a full selection ends the search: then all selected come earlier.
  lemma {:induction false} SelectsInTurn(queue: seq<Read>, n: nat, requested: set<Path>, room: nat, now: int, limit: nat, d: nat)
    requires d < n <= |queue| && DistinctPaths(queue) && queue[d].IsDue(now)
    ensures var r := Select(queue, n, requested, room, now, limit);
            queue[d].path in r.paths || queue[d].path in r.leftOut
            || (|r.paths| >= limit && forall p :: p in r.paths ==> DueAmong(queue, d, now, p))
  {
    if d < n - 1 {
      SelectsInTurn(queue, n - 1, requested, room, now, limit, d);
    } else {
      SelectsDue(queue, d, requested, room, now, limit);
    }
  }

  // A full selection is the selection of the whole queue.
  lemma {:induction false} SelectIsFull(queue: seq<Read>, n: nat, m: nat, requested: set<Path>, room: nat, now: int, limit: nat)
    requires n <= m <= |queue| && |Select(queue, n, requested, room, now, limit).paths| >= limit
    ensures Select(queue, m, requested, room, now, limit) == Select(queue, n, requested, room, now, limit)
  {
    if n < m {
      SelectIsFull(queue, n, m - 1, requested, room, now, limit);
    }
  }

  lemma AddOne(requested: set<Path>, earlier: seq<Path>, p: Path)
    ensures requested + Elements(earlier + [p]) == requested + Elements(earlier) + {p}
    ensures |requested + Elements(earlier + [p])| == |requested + Elements(earlier)| + if p in requested || p in earlier then 0 else 1
  {
    assert Elements(earlier + [p]) == Elements(earlier) + {p};
    if p in requested + Elements(earlier) {
      assert requested + Elements(earlier) + {p} == requested + Elements(earlier);
    }
  }

  ghost predicate ReadyIn(paths: seq<Path>, table: map<Path, Read>, now: int) {
    NoRepeats(paths) && forall p :: p in paths ==> p in table && table[p].IsDue(now)
  }

  // Of two due reads the unexpected child, or else the one that has been due for longer, is selected before the other.
  lemma SelectsOldest(table: map<Path, Read>, order: seq<Path>, catalog: Catalog, requested: set<Path>, maximum: int,
                      now: int, limit: nat, p: Path, q: Path)
    requires Indexed(table, order) && p in SelectionOf(table, order, catalog, requested, maximum, now, limit).paths
    requires q in table && table[q].IsDue(now)
    requires q !in SelectionOf(table, order, catalog, requested, maximum, now, limit).paths
    requires q !in SelectionOf(table, order, catalog, requested, maximum, now, limit).leftOut
    ensures p in table && if catalog.isStartup(p) then catalog.isStartup(q) && table[p].nextAttempt <= table[q].nextAttempt
                          else catalog.isStartup(q) || table[p].nextAttempt <= table[q].nextAttempt
  {
    var queue, room := Sort(ReadsOf(table, order), InOrder(catalog)), Max(0, maximum - |requested|);
    QueueHoldsEachRead(catalog, table, order);
    assert table[q] in queue;
    var d :| 0 <= d < |queue| && queue[d] == table[q];
    SelectsInTurn(queue, |queue|, requested, room, now, limit, d);
    assert DueAmong(queue, d, now, p);
    var i :| 0 <= i < d && queue[i].path == p && queue[i].IsDue(now);
    assert Earlier(catalog, queue[i], queue[d]);
  }

  /** The selection of one gateway: its reads in order, against the budget of distinct paths. */
  function SelectionOf(table: map<Path, Read>, order: seq<Path>, catalog: Catalog, requested: set<Path>, maximum: int,
                       now: int, limit: nat): Selection
    requires forall p :: p in order ==> p in table
  {
    var queue := Sort(ReadsOf(table, order), InOrder(catalog));
    Select(queue, |queue|, requested, Max(0, maximum - |requested|), now, limit)
  }

  // A selection can be sent at once: its paths are due, also after the others were left out, and fit the budget.
  lemma SelectionReady(table: map<Path, Read>, order: seq<Path>, catalog: Catalog, requested: set<Path>, maximum: int,
                       now: int, limit: nat)
    requires Indexed(table, order)
    ensures var r := SelectionOf(table, order, catalog, requested, maximum, now, limit);
            && |r.paths| <= limit && ReadyIn(r.paths, table, now)
            && ReadyIn(r.paths, AllApplied(table, r.leftOut, LeaveOut, catalog), now)
            && |requested + Elements(r.paths)| <= Max(|requested|, maximum)
  {
    var q := Sort(ReadsOf(table, order), InOrder(catalog));
    QueueHoldsEachRead(catalog, table, order);
    SelectsDue(q, |q|, requested, Max(0, maximum - |requested|), now, limit);
    SelectSpends(q, |q|, requested, Max(0, maximum - |requested|), now, limit);
  }

  lemma LeftOutPending(table: map<Path, Read>, order: seq<Path>, catalog: Catalog, requested: set<Path>, maximum: int,
                       now: int, limit: nat)
    requires Indexed(table, order)
    ensures var leftOut := SelectionOf(table, order, catalog, requested, maximum, now, limit).leftOut;
            NoRepeats(leftOut) && forall p :: p in leftOut ==> p in table && table[p].IsPending()
  {
    var q := Sort(ReadsOf(table, order), InOrder(catalog));
    QueueHoldsEachRead(catalog, table, order);
    SelectsDue(q, |q|, requested, Max(0, maximum - |requested|), now, limit);
  }

  lemma SelectsFrom(table: map<Path, Read>, order: seq<Path>, catalog: Catalog, requested: set<Path>, maximum: int,
                    now: int, limit: nat, queue: seq<Read>, room: nat)
    requires (forall p :: p in order ==> p in table) && queue == Sort(ReadsOf(table, order), InOrder(catalog))
    requires room == Max(0, maximum - |requested|)
    ensures SelectionOf(table, order, catalog, requested, maximum, now, limit) == Select(queue, |queue|, requested, room, now, limit)
  {
  }

  lemma LeaveOutAllowed(table: map<Path, Read>, order: seq<Path>, catalog: Catalog, requested: set<Path>, maximum: int,
                        now: int, limit: nat, leftOut: seq<Path>, clock: int)
    requires Indexed(table, order) && leftOut == SelectionOf(table, order, catalog, requested, maximum, now, limit).leftOut
    ensures NoRepeats(leftOut) == true && AllAllowed(leftOut, table, LeaveOut, clock) == true
  {
    LeftOutPending(table, order, catalog, requested, maximum, now, limit);
  }

  /** A read is exactly what its legal history makes of it. */
  ghost predicate Genuine(r: Read, path: Path, depth: int, steps: seq<Step>, catalog: Catalog, clock: int) {
    Legal(NewRead(path, depth), steps, catalog) && r == Replay(NewRead(path, depth), steps, catalog) && Clock(steps) <= clock
  }

  lemma GenuineStep(r: Read, path: Path, depth: int, steps: seq<Step>, catalog: Catalog, clock: int, s: Step)
    requires Genuine(r, path, depth, steps, catalog, clock)
    requires Allowed(r, s, clock) && (Timed(s) ==> s.at == clock)
    ensures Genuine(Apply(r, s, catalog), path, depth, steps + [s], catalog, clock)
  {
    assert (steps + [s])[..|steps|] == steps;
  }

  ghost predicate Replayed(table: map<Path, Read>, history: map<Path, seq<Step>>, origin: map<Path, int>, catalog: Catalog,
                           clock: int)
  {
    && table.Keys == history.Keys == origin.Keys
    && forall p :: p in table ==> Genuine(table[p], p, origin[p], history[p], catalog, clock)
  }

  lemma StepReplayed(table: map<Path, Read>, history: map<Path, seq<Step>>, origin: map<Path, int>, catalog: Catalog,
                     clock: int, p: Path, s: Step)
    requires Replayed(table, history, origin, catalog, clock)
    requires p in table && Allowed(table[p], s, clock) && (Timed(s) ==> s.at == clock)
    ensures Replayed(table[p := Apply(table[p], s, catalog)], history[p := history[p] + [s]], origin, catalog, clock)
  {
    GenuineStep(table[p], p, origin[p], history[p], catalog, clock, s);
  }

  /** The reads of a gateway: each path once, and each read exactly what its history makes of it. */
  ghost predicate Genuinely(table: map<Path, Read>, order: seq<Path>, history: map<Path, seq<Step>>, origin: map<Path, int>,
                            catalog: Catalog, clock: int)
  {
    clock >= 0 && Indexed(table, order) && Replayed(table, history, origin, catalog, clock)
  }

  lemma StepGenuinely(table: map<Path, Read>, order: seq<Path>, history: map<Path, seq<Step>>, origin: map<Path, int>,
                      catalog: Catalog, clock: int, p: Path, s: Step)
    requires Genuinely(table, order, history, origin, catalog, clock) == true
    requires p in table && Allowed(table[p], s, clock) && (Timed(s) ==> s.at == clock)
    ensures p in history
    ensures Genuinely(table[p := Apply(table[p], s, catalog)], order, history[p := history[p] + [s]], origin, catalog, clock) == true
  {
    StepReplayed(table, history, origin, catalog, clock, p, s);
    StepIndexed(table, order, p, Apply(table[p], s, catalog));
  }

  lemma StepIndexed(table: map<Path, Read>, order: seq<Path>, p: Path, r: Read)
    requires Indexed(table, order) && p in table && r.path == p
    ensures Indexed(table[p := r], order)
  {
    assert table[p := r].Keys == table.Keys;
  }

  lemma LaterGenuinely(table: map<Path, Read>, order: seq<Path>, history: map<Path, seq<Step>>, origin: map<Path, int>,
                       catalog: Catalog, clock: int, now: int)
    requires Genuinely(table, order, history, origin, catalog, clock) == true && clock <= now
    ensures Genuinely(table, order, history, origin, catalog, now) == true
  {
  }

  function Enrolled(table: map<Path, Read>, path: Path, depth: int): (after: map<Path, Read>)
    ensures path in after
  {
    if path in table then table else table[path := NewRead(path, depth)]
  }

  /** A path joins the reads, if there is room for it, and is refreshed. */
  function ScheduledIn(table: map<Path, Read>, path: Path, s: Step, catalog: Catalog): map<Path, Read>
    requires s.Schedule?
  {
    if path !in table && |table| >= MAX_STARTUP_PATHS then table
    else
      var enrolled := Enrolled(table, path, s.depth);
      enrolled[path := Apply(enrolled[path], s, catalog)]
  }

  lemma OrderCounts(table: map<Path, Read>, order: seq<Path>)
    requires Indexed(table, order)
    ensures |order| == |table|
  {
    NoRepeatsCount(order);
    assert |table.Keys| == |table|;
  }

  lemma EnrolReplayed(table: map<Path, Read>, history: map<Path, seq<Step>>, origin: map<Path, int>, catalog: Catalog,
                      clock: int, path: Path, depth: int)
    requires Replayed(table, history, origin, catalog, clock)
    requires path !in table && clock >= 0
    ensures Replayed(table[path := NewRead(path, depth)], history[path := []], origin[path := depth], catalog, clock)
  {
    assert Genuine(NewRead(path, depth), path, depth, [], catalog, clock);
  }

  lemma EnrolIndexed(table: map<Path, Read>, order: seq<Path>, path: Path, depth: int)
    requires Indexed(table, order) && path !in table
    ensures Indexed(table[path := NewRead(path, depth)], order + [path])
  {
    assert Elements(order + [path]) == Elements(order) + {path};
  }

  lemma EnrolGenuinely(table: map<Path, Read>, order: seq<Path>, history: map<Path, seq<Step>>, origin: map<Path, int>,
                       catalog: Catalog, clock: int, path: Path, depth: int)
    requires Genuinely(table, order, history, origin, catalog, clock) == true && path !in table
    ensures Genuinely(table[path := NewRead(path, depth)], order + [path], history[path := []], origin[path := depth], catalog,
                      clock) == true
    ensures InflightOf(table[path := NewRead(path, depth)]) == InflightOf(table)
  {
    EnrolReplayed(table, history, origin, catalog, clock, path, depth);
    EnrolIndexed(table, order, path, depth);
  }

  ghost function InflightOf(table: map<Path, Read>): set<Path> {
    set p | p in table && table[p].state == Reading
  }

  // Only starting puts a read in flight, and only an outcome or giving it up ends that.
  lemma ReadingAfter(r: Read, s: Step, clock: int, catalog: Catalog)
    requires Sound(r, clock)
    ensures Apply(r, s, catalog).state == Reading <==>
              s.Start? || (r.state == Reading && (s.Rejoin? || s.Schedule? || s.Postpone?))
  {
  }

  lemma ReadingAfterStep(table: map<Path, Read>, history: map<Path, seq<Step>>, origin: map<Path, int>, catalog: Catalog,
                         clock: int, p: Path, s: Step)
    requires Replayed(table, history, origin, catalog, clock) && p in table
    ensures Apply(table[p], s, catalog).state == Reading <==>
              s.Start? || (table[p].state == Reading && (s.Rejoin? || s.Schedule? || s.Postpone?))
  {
    LegalIsSound(p, origin[p], history[p], catalog);
    ReadingAfter(table[p], s, Clock(history[p]), catalog);
  }

  lemma StepInflight(table: map<Path, Read>, history: map<Path, seq<Step>>, origin: map<Path, int>, catalog: Catalog,
                     clock: int, p: Path, s: Step)
    requires Replayed(table, history, origin, catalog, clock) && p in table
    ensures InflightOf(table[p := Apply(table[p], s, catalog)]) == InflightAfter(InflightOf(table), {p}, s)
  {
    ReadingAfterStep(table, history, origin, catalog, clock, p, s);
  }

  lemma AppliedInflight(table: map<Path, Read>, order: seq<Path>, history: map<Path, seq<Step>>, origin: map<Path, int>,
                        catalog: Catalog, clock: int, paths: seq<Path>, s: Step)
    requires Genuinely(table, order, history, origin, catalog, clock) == true && AllAllowed(paths, table, s, clock) == true
    ensures InflightOf(AllApplied(table, paths, s, catalog)) == InflightAfter(InflightOf(table), Elements(paths), s)
  {
    var after := AllApplied(table, paths, s, catalog);
    forall p | p in table
      ensures after[p].state == Reading <==> p in InflightAfter(InflightOf(table), Elements(paths), s)
    {
      ReadingAfterStep(table, history, origin, catalog, clock, p, s);
    }
  }

  ghost function InflightAfter(before: set<Path>, paths: set<Path>, s: Step): set<Path> {
    if s.Start? then before + paths
    else if s.Fail? || s.Receive? || s.LeaveOut? then before - paths
    else before
  }

  /** The reads of one gateway, in the order in which they joined, and what they may spend. */
  class StartupGatewayData {
    const catalog: Catalog
    var table: map<Path, Read>
    var order: seq<Path>
    var requested: set<Path>
    var maximumResources: int
    var maximumDepth: int
    var healthy: bool
    var omittedLicense: bool
    var budgetExhaustions: nat
    // Everything that happened to each read, where it began, and the latest time seen.
    ghost var history: map<Path, seq<Step>>
    ghost var origin: map<Path, int>
    ghost var clock: int

    ghost predicate Valid()
      reads `table, `order, `history, `origin, `clock
    {
      Genuinely(table, order, history, origin, catalog, clock) == true
    }

    // The paths whose request has been sent and not yet answered.
    ghost function Inflight(): set<Path>
      reads `table
    {
      InflightOf(table)
    }

    constructor (catalog: Catalog, maximumResources: int, maximumDepth: int)
      ensures Valid() && Inflight() == {} && fresh(this)
      ensures this.catalog == catalog && table == map[] && requested == {} && clock == 0
      ensures this.maximumResources == maximumResources && this.maximumDepth == maximumDepth
      ensures !healthy && !omittedLicense && budgetExhaustions == 0
    {
      this.catalog := catalog;
      table, order, requested, history, origin, clock := map[], [], {}, map[], map[], 0;
      this.maximumResources, this.maximumDepth := maximumResources, maximumDepth;
      healthy, omittedLicense, budgetExhaustions := false, false, 0;
    }

    // One allowed step of one read.
    method Advance(p: Path, s: Step)
      requires Valid() && p in table && Allowed(table[p], s, clock) && (Timed(s) ==> s.at == clock)
      modifies `table, `history
      ensures Valid()
      ensures table == old(table)[p := Apply(old(table)[p], s, catalog)]
    {
      StepGenuinely(table, order, history, origin, catalog, clock, p, s);
      history := history[p := history[p] + [s]];
      table := table[p := Apply(table[p], s, catalog)];
    }

    method AdvanceAll(paths: seq<Path>, s: Step)
      requires Valid() && NoRepeats(paths) == true && (Timed(s) ==> s.at == clock)
      requires AllAllowed(paths, table, s, clock) == true
      modifies `table, `history
      ensures Valid()
      ensures table == AllApplied(old(table), paths, s, catalog)
      ensures Inflight() == InflightAfter(old(Inflight()), Elements(paths), s)
    {
      ghost var before := table;
      AppliedInflight(table, order, history, origin, catalog, clock, paths, s);
      AppliedToNone(before, s, catalog);
      for i := 0 to |paths|
        invariant Valid() && table == AllApplied(before, paths[..i], s, catalog)
      {
        AppliedToNext(before, paths, i, s, clock, catalog);
        Advance(paths[i], s);
      }
      assert paths[..|paths|] == paths;
    }

    method RecordMainCycle(successful: bool)
      modifies `healthy
      ensures healthy == successful
    {
      healthy := successful;
    }

    method OmitLicense()
      modifies `omittedLicense
      ensures omittedLicense
    {
      omittedLicense := true;
    }

    /** A new attempt of the set-up: only registered paths stay active, and structural surprises start over. */
    method BeginDiscovery(resourceBound: Option<int>, depthBound: Option<int>)
      requires Valid()
      modifies `table, `history, `maximumResources, `maximumDepth, `healthy
      ensures Valid()
      ensures table == AllApplied(old(table), order, Rejoin, catalog) && Inflight() == old(Inflight())
      ensures maximumResources == (if resourceBound.Some? then resourceBound.value else old(maximumResources))
      ensures maximumDepth == (if depthBound.Some? then depthBound.value else old(maximumDepth))
      ensures !healthy
    {
      if resourceBound.Some? { maximumResources := resourceBound.value; }
      if depthBound.Some? { maximumDepth := depthBound.value; }
      healthy := false;
      AdvanceAll(order, Rejoin);
    }

    /** Charges ordinary discovery to the same budget of distinct paths. */
    method ReserveDiscovery(paths: seq<Path>) returns (accepted: seq<Path>)
      modifies `requested
      ensures accepted == Reserved(paths, old(requested), maximumResources)
      ensures requested == old(requested) + Elements(accepted)
      ensures |requested| <= Max(|old(requested)|, maximumResources)
    {
      accepted := [];
      for i := 0 to |paths|
        invariant accepted == Reserved(paths[..i], old(requested), maximumResources)
        invariant requested == old(requested) + Elements(accepted)
      {
        assert paths[..i + 1][..i] == paths[..i];
        if paths[i] !in requested && |requested| >= maximumResources {
          continue;
        }
        AddOne(old(requested), accepted, paths[i]);
        requested := requested + {paths[i]};
        accepted := accepted + [paths[i]];
      }
      assert paths[..|paths|] == paths;
      ReservedWithinBudget(paths, old(requested), maximumResources);
    }

    /** Adds or refreshes one reported or registered path. */
    method Schedule(path: Path, depth: int, advertised: bool, registered: bool, referencedChild: bool)
      requires Valid()
      modifies `table, `order, `history, `origin
      ensures Valid() && Inflight() == old(Inflight())
      ensures table == if catalog.isStartup(path) || referencedChild
                       then ScheduledIn(old(table), path, Step.Schedule(depth, advertised, registered, maximumDepth), catalog) else old(table)
    {
      OrderCounts(table, order);
      if !catalog.isStartup(path) && !referencedChild {
        return;
      }
      if path !in table {
        if |order| >= MAX_STARTUP_PATHS {
          return;
        }
        Enrol(path, depth);
      }
      StepInflight(table, history, origin, catalog, clock, path, Step.Schedule(depth, advertised, registered, maximumDepth));
      Advance(path, Step.Schedule(depth, advertised, registered, maximumDepth));
    }

    method Enrol(path: Path, depth: int)
      requires Valid() && path !in table
      modifies `table, `order, `history, `origin
      ensures Valid() && table == Enrolled(old(table), path, depth) && Inflight() == old(Inflight())
    {
      EnrolGenuinely(table, order, history, origin, catalog, clock, path, depth);
      table, order := table[path := NewRead(path, depth)], order + [path];
      history, origin := history[path := []], origin[path := depth];
    }

    /** The next due reads that the budget admits; due ones that it does not admit are given up. */
    method Due(now: int, limit: nat) returns (paths: seq<Path>)
      requires Valid() && limit >= 1
      modifies `table, `history
      ensures Valid()
      ensures var r := SelectionOf(old(table), order, catalog, requested, maximumResources, now, limit);
              paths == r.paths && table == AllApplied(old(table), r.leftOut, LeaveOut, catalog)
      ensures Inflight() <= old(Inflight())
    {
      var leftOut;
      paths, leftOut := ChooseDue(now, limit);
      LeaveOutAllowed(table, order, catalog, requested, maximumResources, now, limit, leftOut, clock);
      AdvanceAll(leftOut, LeaveOut);
    }

    method ChooseDue(now: int, limit: nat) returns (paths: seq<Path>, leftOut: seq<Path>)
      requires Valid() && limit >= 1
      ensures var r := SelectionOf(table, order, catalog, requested, maximumResources, now, limit); paths == r.paths && leftOut == r.leftOut
    {
      var queue, room := Sort(ReadsOf(table, order), InOrder(catalog)), Max(0, maximumResources - |requested|);
      SelectsFrom(table, order, catalog, requested, maximumResources, now, limit, queue, room);
      paths, leftOut := Choose(queue, requested, room, now, limit);
    }

    /** A batch of due reads is about to be sent: charges and marks exactly these. */
    method Start(paths: seq<Path>, now: int)
      requires Valid() && now >= clock
      requires ReadyIn(paths, table, now)
      modifies `table, `history, `requested, `clock
      ensures Valid() && clock == now
      ensures requested == old(requested) + Elements(paths)
      ensures table == AllApplied(old(table), paths, Step.Start(now), catalog)
      ensures Inflight() == old(Inflight()) + Elements(paths)
    {
      requested, clock := requested + Elements(paths), now;
      AdvanceAll(paths, Step.Start(now));
    }

    /** These requests failed: each leaves the reads in flight and waits for its own deadline. */
    method Fail(paths: seq<Path>, category: Category, now: int)
      requires Valid() && now >= clock
      requires NoRepeats(paths) && Elements(paths) <= Inflight()
      modifies `table, `history, `clock
      ensures Valid() && clock == now
      ensures table == AllApplied(old(table), paths, Step.Fail(category, now), catalog)
      ensures Inflight() == old(Inflight()) - Elements(paths)
    {
      LaterGenuinely(table, order, history, origin, catalog, clock, now);
      InflightMayFail(paths, table, category, now);
      clock := now;
      AdvanceAll(paths, Step.Fail(category, now));
    }

    /** The reply to one request: it is accepted exactly when it is usable. */
    method Receive(resource: Resource, now: int) returns (accepted: bool)
      requires Valid() && now >= clock
      requires resource.path in Inflight()
      modifies `table, `history, `clock
      ensures Valid() && clock == now
      ensures table == old(table)[resource.path := old(table)[resource.path].Received(resource, now, catalog)]
      ensures Inflight() == old(Inflight()) - {resource.path}
      ensures accepted <==> Usable(resource, catalog)
    {
      clock := now;
      AcceptsUsable(table[resource.path], resource, now, catalog);
      StepInflight(table, history, origin, catalog, now, resource.path, Step.Receive(resource, now));
      Advance(resource.path, Step.Receive(resource, now));
      accepted := table[resource.path].state.Success? || table[resource.path].state.NormalResource?;
    }

    /** Time is up: due reads that were not sent wait one interval, and their failures stay as they are. */
    method BudgetExpired(now: int, inFlight: bool)
      requires Valid() && now >= clock
      modifies `table, `history, `clock, `budgetExhaustions
      ensures Valid() && clock == now
      ensures table == AllApplied(old(table), order, Postpone(now), catalog) && Inflight() == old(Inflight())
      ensures budgetExhaustions == old(budgetExhaustions) + if inFlight || table != old(table) then 1 else 0
    {
      LaterGenuinely(table, order, history, origin, catalog, clock, now);
      clock := now;
      var earlier := table;
      AdvanceAll(order, Postpone(now));
      assert Inflight() == old(Inflight());
      if inFlight || table != earlier {
        budgetExhaustions := budgetExhaustions + 1;
      }
    }
  }

  /** The paths that the budget still admits, in order. */
  function Reserved(paths: seq<Path>, requested: set<Path>, maximum: int): (accepted: seq<Path>)
    ensures |accepted| <= |paths|
  {
    if paths == [] then []
    else
      var earlier, p := Reserved(paths[..|paths| - 1], requested, maximum), paths[|paths| - 1];
      var spent := requested + Elements(earlier);
      if p !in spent && |spent| >= maximum then earlier else earlier + [p]
  }

  // Reserving keeps only given paths, each once, and always admits a path already paid for.
  lemma {:induction false} ReservedSelects(paths: seq<Path>, requested: set<Path>, maximum: int)
    requires NoRepeats(paths)
    ensures var accepted := Reserved(paths, requested, maximum);
            && NoRepeats(accepted) && (forall p :: p in accepted ==> p in paths)
            && (forall p :: p in paths && p in requested ==> p in accepted)
  {
    if paths != [] {
      var front, p := paths[..|paths| - 1], paths[|paths| - 1];
      var earlier := Reserved(front, requested, maximum);
      ReservedSelects(front, requested, maximum);
      assert p !in front;
      NoRepeatsNext(earlier, p);
      forall q | q in paths && q in requested ensures q in Reserved(paths, requested, maximum) {
        assert q == p || q in front;
      }
    }
  }

  lemma NoRepeatsNext(s: seq<Path>, p: Path)
    requires NoRepeats(s) && p !in s
    ensures NoRepeats(s + [p])
  {
  }

  // Reserving never exceeds the budget, and turns a path away only when the budget is spent.
  lemma {:induction false} ReservedWithinBudget(paths: seq<Path>, requested: set<Path>, maximum: int)
    ensures var accepted := Reserved(paths, requested, maximum);
            && |requested + Elements(accepted)| <= Max(|requested|, maximum)
            && (|accepted| < |paths| ==> |requested + Elements(accepted)| >= maximum)
  {
    if paths == [] {
      assert requested + Elements(Reserved(paths, requested, maximum)) == requested;
    } else {
      var earlier, p := Reserved(paths[..|paths| - 1], requested, maximum), paths[|paths| - 1];
      ReservedWithinBudget(paths[..|paths| - 1], requested, maximum);
      AddOne(requested, earlier, p);
    }
  }

  /** A step is allowed for each of these reads. */
  ghost predicate AllAllowed(paths: seq<Path>, table: map<Path, Read>, s: Step, clock: int) {
    forall p :: p in paths ==> p in table && Allowed(table[p], s, clock)
  }

  lemma InflightMayFail(paths: seq<Path>, table: map<Path, Read>, category: Category, now: int)
    requires Elements(paths) <= InflightOf(table)
    ensures AllAllowed(paths, table, Step.Fail(category, now), now)
  {
    assert forall p :: p in paths ==> p in Elements(paths);
  }

  function AllApplied(table: map<Path, Read>, paths: seq<Path>, s: Step, catalog: Catalog): map<Path, Read> {
    map p | p in table :: if p in paths then Apply(table[p], s, catalog) else table[p]
  }

  lemma AppliedToNone(table: map<Path, Read>, s: Step, catalog: Catalog)
    ensures AllApplied(table, [], s, catalog) == table
  {
  }

  lemma AppliedToNext(table: map<Path, Read>, paths: seq<Path>, i: nat, s: Step, clock: int, catalog: Catalog)
    requires i < |paths| && NoRepeats(paths) == true && AllAllowed(paths, table, s, clock) == true
    ensures paths[i] in table && Allowed(table[paths[i]], s, clock) == true
    ensures AllApplied(table, paths[..i], s, catalog)[paths[i]] == table[paths[i]]
    ensures AllApplied(table, paths[..i + 1], s, catalog) ==
              AllApplied(table, paths[..i], s, catalog)[paths[i] := Apply(table[paths[i]], s, catalog)]
  {
    assert paths[..i + 1] == paths[..i] + [paths[i]];
  }

  method Choose(queue: seq<Read>, requested: set<Path>, room: nat, now: int, limit: nat)
    returns (paths: seq<Path>, leftOut: seq<Path>)
    requires limit >= 1
    ensures var r := Select(queue, |queue|, requested, room, now, limit); paths == r.paths && leftOut == r.leftOut
  {
    var remaining: int := room;
    paths, leftOut := [], [];
    var i := 0;
    while i < |queue|
      invariant 0 <= i <= |queue| && |paths| < limit && 0 <= remaining <= room
      invariant Selection(paths, leftOut, room - remaining) == Select(queue, i, requested, room, now, limit)
    {
      var read := queue[i];
      i := i + 1;
      if !read.IsPending() || read.nextAttempt > now {
        continue;
      }
      if read.path !in requested {
        if remaining == 0 {
          leftOut := leftOut + [read.path];
          continue;
        }
        remaining := remaining - 1;
      }
      paths := paths + [read.path];
      if |paths| >= limit {
        SelectIsFull(queue, i, |queue|, requested, room, now, limit);
        break;
      }
    }
  }
}
