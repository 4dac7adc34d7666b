/**
  Reading one batch of supplementary data (startup_reader.py). The cloud is free to answer anything:
  the reply is chosen arbitrarily when the request has been sent.
  On `P(x) == true` in contracts see Common.dfy.
 */
module StartupReader {
  import opened Common
  import opened StartupData

  datatype ErrorKind = NoError | RateLimitError | TimeoutError | UnavailableError | OtherError

  /** One entry of a bulk reply; `ours` says that it names this gateway. */
  datatype Item = Item(path: Path, ours: bool, status: Option<int>, resource: Option<Resource>, error: ErrorKind)

  datatype Reply =
    | Results(items: seq<Item>)
    | CancelledReply
    | AuthenticationReply
    | TimeoutReply
    | ErrorReply(error: ErrorKind, status: Option<int>)

  /** A batch with its reply. */
  datatype Exchange = Exchange(paths: seq<Path>, reply: Reply)

  /** `None` as a category is the outcome "success". */
  datatype Outcome =
    | Skipped
    | Raised(category: Category)
    | Completed(outcomes: seq<(Path, Option<Category>)>, rateLimited: bool)

  function FailureCategory(error: ErrorKind, status: Option<int>): Category {
    if status == Some(403) then Forbidden
    else if status == Some(404) then NotFound
    else if status == Some(406) then NotAcceptable
    else if status == Some(429) || error == RateLimitError then RateLimit
    else if error == TimeoutError then Timeout
    else if status == Some(502) || status == Some(503) || status == Some(504) || error == UnavailableError then Unavailable
    else if error == NoError then Unknown
    else Category.RequestFailed
  }

  ghost predicate IsUnavailable(error: ErrorKind, status: Option<int>) {
    && status !in [Some(403), Some(404), Some(406), Some(429)] && error !in [RateLimitError, TimeoutError]
    && (error == UnavailableError || status in [Some(502), Some(503), Some(504)])
  }

  // Which failure of an item, or of a request, belongs to which category: the status decides before the kind of the error.
  lemma CategoryExactly(error: ErrorKind, status: Option<int>)
    ensures var c := FailureCategory(error, status);
            && (c == Forbidden <==> status == Some(403)) && (c == NotFound <==> status == Some(404))
            && (c == NotAcceptable <==> status == Some(406))
            && (c == RateLimit <==> !IsLocal(c) && (status == Some(429) || error == RateLimitError))
            && (c == Timeout <==> !IsLocal(c) && status != Some(429) && error == TimeoutError)
            && (c == Unavailable <==> IsUnavailable(error, status))
            && (c == Unknown <==> error == NoError && status !in [Some(403), Some(404), Some(406), Some(429), Some(502), Some(503), Some(504)])
            && c in [Forbidden, NotFound, NotAcceptable, RateLimit, Timeout, Unavailable, Unknown, Category.RequestFailed]
  {
  }

  /** The entry is this gateway's answer for the path, and the last one in the reply. */
  ghost predicate IsAnswer(items: seq<Item>, p: Path, item: Item) {
    exists k :: 0 <= k < |items| && items[k] == item && item.path == p && item.ours && NoneSince(items, k + 1, p)
  }

  ghost predicate NoneSince(items: seq<Item>, k: nat, p: Path) {
    forall j :: k <= j < |items| ==> !(items[j].path == p && items[j].ours)
  }

  /** The last entry for this path of this gateway wins. */
  function Lookup(items: seq<Item>, p: Path): Option<Item> {
    if items == [] then None
    else if items[|items| - 1].path == p && items[|items| - 1].ours then Some(items[|items| - 1])
    else Lookup(items[..|items| - 1], p)
  }

  lemma {:induction false} LookupExactly(items: seq<Item>, p: Path)
    ensures match Lookup(items, p) case Some(item) => IsAnswer(items, p, item) case None => NoneSince(items, 0, p)
  {
    if items != [] {
      var front, last := items[..|items| - 1], items[|items| - 1];
      LookupExactly(front, p);
      if last.path == p && last.ours {
        assert items[|items| - 1] == last;
      } else if Lookup(items, p).Some? {
        var k :| 0 <= k < |front| && front[k] == Lookup(front, p).value && NoneSince(front, k + 1, p);
        assert items[k] == front[k];
      }
    }
  }

  predicate AnyStatus(items: seq<Item>, paths: seq<Path>, status: int) {
    exists i :: 0 <= i < |paths| && Lookup(items, paths[i]).Some? && Lookup(items, paths[i]).value.status == Some(status)
  }

  // Only the last answer for a requested path counts.
  lemma AnyStatusExactly(items: seq<Item>, paths: seq<Path>, status: int)
    ensures AnyStatus(items, paths, status) <==>
              exists p, item :: p in paths && IsAnswer(items, p, item) && item.status == Some(status)
  {
    if i :| 0 <= i < |paths| && Lookup(items, paths[i]).Some? && Lookup(items, paths[i]).value.status == Some(status) {
      LookupExactly(items, paths[i]);
      assert paths[i] in paths && IsAnswer(items, paths[i], Lookup(items, paths[i]).value);
    }
    if p, item :| p in paths && IsAnswer(items, p, item) && item.status == Some(status) {
      LookupExactly(items, p);
      OneAnswer(items, p, item, Lookup(items, p).value);
      var i :| 0 <= i < |paths| && paths[i] == p;
    }
  }

  lemma OneAnswer(items: seq<Item>, p: Path, a: Item, b: Item)
    requires IsAnswer(items, p, a) && IsAnswer(items, p, b)
    ensures a == b
  {
    var i :| 0 <= i < |items| && items[i] == a && a.path == p && a.ours && NoneSince(items, i + 1, p);
    var j :| 0 <= j < |items| && items[j] == b && b.path == p && b.ours && NoneSince(items, j + 1, p);
    assert i == j;
  }

  /** The outcome of one requested path. Only a usable resource for exactly this path succeeds. */
  function Verdict(p: Path, result: Option<Item>, catalog: Catalog): (category: Option<Category>)
    ensures category.None? <==> result.Some? && result.value.resource.Some? && result.value.resource.value.path == p
                                && Usable(result.value.resource.value, catalog)
    ensures result.None? <==> category == Some(MissingResult)
    ensures category == Some(InvalidValue) <==>
              result.Some? && if result.value.resource.Some? then category.Some?
                              else result.value.status.Some? && 200 <= result.value.status.value < 300
    ensures result.Some? && category.Some? && category != Some(InvalidValue) ==>
              category == Some(FailureCategory(result.value.error, result.value.status))
  {
    if result.None? then Some(MissingResult)
    else if result.value.resource.Some? && result.value.resource.value.path == p then
      if Usable(result.value.resource.value, catalog) then None else Some(InvalidValue)
    else if result.value.resource.Some? || (result.value.status.Some? && 200 <= result.value.status.value < 300) then
      Some(InvalidValue)
    else Some(FailureCategory(result.value.error, result.value.status))
  }

  /** What a requested read is afterwards: accepted with its value, or waiting after this failure, or given up after a local one. */
  ghost predicate Settled(read: Read, category: Option<Category>, at: int) {
    read.attempts >= 1
    && if category.None? then (read.state.Success? || read.state.NormalResource?) && read.resource.Some? && read.failures == 0
       else WaitsAfter(read, category.value, at) || (read.state.Unsupported? && IsLocal(category.value))
  }

  /** Of the references of an unexpected container, those to follow: below the roots, unknown, and not the licence. */
  ghost predicate Follows(p: Path, known: set<Path>, roots: seq<Path>) { p != LICENSE_PATH && p !in known && Under(p, roots) }

  ghost function Queued(table: map<Path, Read>, references: seq<Path>, s: Step, known: set<Path>, roots: seq<Path>, catalog: Catalog)
    : map<Path, Read>
    requires s.Schedule?
  {
    if references == [] then table
    else
      var earlier, p := Queued(table, references[..|references| - 1], s, known, roots, catalog), references[|references| - 1];
      QueuedOne(earlier, p, s, known, roots, catalog)
  }

  ghost function QueuedOne(table: map<Path, Read>, p: Path, s: Step, known: set<Path>, roots: seq<Path>, catalog: Catalog)
    : map<Path, Read>
    requires s.Schedule?
  {
    if Follows(p, known, roots) then ScheduledIn(table, p, s, catalog) else table
  }

  lemma QueuedNext(table: map<Path, Read>, references: seq<Path>, i: nat, s: Step, known: set<Path>, roots: seq<Path>, catalog: Catalog)
    requires s.Schedule? && i < |references|
    ensures Queued(table, references[..i + 1], s, known, roots, catalog) ==
              QueuedOne(Queued(table, references[..i], s, known, roots, catalog), references[i], s, known, roots, catalog)
    ensures LICENSE_PATH in references[..i + 1] <==> LICENSE_PATH in references[..i] || references[i] == LICENSE_PATH
  {
    assert references[..i + 1][..i] == references[..i];
    assert references[..i + 1] == references[..i] + [references[i]];
  }

  /** A reference to follow is an active read, unless the list of reads is full. */
  ghost predicate IsQueued(after: map<Path, Read>, p: Path, s: Step)
    requires s.Schedule?
  {
    if p in after then after[p].active && after[p].depth <= s.depth && (s.advertised ==> after[p].advertised)
    else |after| >= MAX_STARTUP_PATHS
  }

  // Every reference to follow becomes an active read, unless the list of reads is full; everything else stays as it was.
  lemma {:induction false} QueuesReferences(table: map<Path, Read>, references: seq<Path>, s: Step, known: set<Path>,
                                            roots: seq<Path>, catalog: Catalog, p: Path)
    requires s.Schedule?
    ensures var after := Queued(table, references, s, known, roots, catalog);
            && (p in references && Follows(p, known, roots) ==> IsQueued(after, p, s))
            && (!(p in references && Follows(p, known, roots)) ==>
                  (p in after <==> p in table) && (p in table ==> after[p] == table[p]))
  {
    if references != [] {
      var front, q := references[..|references| - 1], references[|references| - 1];
      assert references == front + [q];
      QueuesReferences(table, front, s, known, roots, catalog, p);
      QueuesOne(Queued(table, front, s, known, roots, catalog), q, s, known, roots, catalog, p);
    }
  }

  lemma QueuesOne(table: map<Path, Read>, q: Path, s: Step, known: set<Path>, roots: seq<Path>, catalog: Catalog, p: Path)
    requires s.Schedule?
    ensures var after := QueuedOne(table, q, s, known, roots, catalog);
            && (p == q && Follows(p, known, roots) ==> IsQueued(after, p, s))
            && (p != q && IsQueued(table, p, s) ==> IsQueued(after, p, s))
            && (p != q || !Follows(p, known, roots) ==> (p in after <==> p in table) && (p in table ==> after[p] == table[p]))
  {
    GrowsByOne(table, q, s, catalog);
  }

  lemma GrowsByOne(table: map<Path, Read>, p: Path, s: Step, catalog: Catalog)
    requires s.Schedule?
    ensures |ScheduledIn(table, p, s, catalog)| >= |table|
  {
    assert ScheduledIn(table, p, s, catalog).Keys >= table.Keys;
    SubsetSize(table.Keys, ScheduledIn(table, p, s, catalog).Keys);
  }

  // Following references does not undo an outcome.
  lemma {:induction false} StaysSettled(table: map<Path, Read>, references: seq<Path>, s: Step, known: set<Path>,
                                        roots: seq<Path>, catalog: Catalog, p: Path, category: Option<Category>, at: int)
    requires s.Schedule? && p in table && Settled(table[p], category, at)
    ensures var after := Queued(table, references, s, known, roots, catalog); p in after && Settled(after[p], category, at)
  {
    if references != [] {
      StaysSettled(table, references[..|references| - 1], s, known, roots, catalog, p, category, at);
    }
  }

  /** The reads after the reply for one requested path. */
  ghost function ItemAfter(table: map<Path, Read>, p: Path, result: Option<Item>, known: set<Path>, roots: seq<Path>, maximumDepth: int,
                           now: int, catalog: Catalog): map<Path, Read>
    requires p in table
  {
    var category := Verdict(p, result, catalog);
    if category.Some? then table[p := table[p].Failed(category.value, now, catalog)]
    else Accepted(table, result.value.resource.value, known, roots, maximumDepth, now, catalog)
  }

  ghost function Accepted(table: map<Path, Read>, resource: Resource, known: set<Path>, roots: seq<Path>, maximumDepth: int,
                          now: int, catalog: Catalog): map<Path, Read>
    requires resource.path in table
  {
    Queued(table[resource.path := table[resource.path].Received(resource, now, catalog)], resource.references,
           Step.Schedule(table[resource.path].depth + 1, true, false, maximumDepth), known, roots, catalog)
  }

  /** The reads after the replies for all paths of a batch, one after the other. */
  ghost function ItemsAfter(table: map<Path, Read>, paths: seq<Path>, items: seq<Item>, known: set<Path>, roots: seq<Path>,
                            maximumDepth: int, now: int, catalog: Catalog): map<Path, Read>
  {
    if paths == [] then table
    else
      var earlier, p := ItemsAfter(table, paths[..|paths| - 1], items, known, roots, maximumDepth, now, catalog), paths[|paths| - 1];
      if p in earlier then ItemAfter(earlier, p, Lookup(items, p), known, roots, maximumDepth, now, catalog) else earlier
  }

  lemma ItemsNext(table: map<Path, Read>, paths: seq<Path>, i: nat, items: seq<Item>, known: set<Path>, roots: seq<Path>,
                  maximumDepth: int, now: int, catalog: Catalog)
    requires i < |paths| && paths[i] in ItemsAfter(table, paths[..i], items, known, roots, maximumDepth, now, catalog)
    ensures ItemsAfter(table, paths[..i + 1], items, known, roots, maximumDepth, now, catalog) ==
              ItemAfter(ItemsAfter(table, paths[..i], items, known, roots, maximumDepth, now, catalog), paths[i],
                        Lookup(items, paths[i]), known, roots, maximumDepth, now, catalog)
  {
    assert paths[..i + 1][..i] == paths[..i];
  }

  /** The reads after a reply; `started` are those of the batch in flight. */
  ghost function TableAfter(table: map<Path, Read>, order: seq<Path>, paths: seq<Path>, reply: Reply, known: set<Path>, roots: seq<Path>,
                            maximumDepth: int, now: int, catalog: Catalog): map<Path, Read>
  {
    match reply
    case CancelledReply => AllApplied(table, paths, Step.Fail(Cancelled, now), catalog)
    case AuthenticationReply => AllApplied(table, paths, Step.Fail(Authentication, now), catalog)
    case TimeoutReply => AllApplied(AllApplied(table, order, Postpone(now), catalog), paths, Step.Fail(Timeout, now), catalog)
    case ErrorReply(error, status) => AllApplied(table, paths, Step.Fail(FailureCategory(error, status), now), catalog)
    case Results(items) =>
      if AnyStatus(items, paths, 401) then AllApplied(table, paths, Step.Fail(Authentication, now), catalog)
      else ItemsAfter(table, paths, items, known, roots, maximumDepth, now, catalog)
  }

  /** A reply makes this of the reads. */
  ghost predicate Becomes(after: map<Path, Read>, before: map<Path, Read>, order: seq<Path>, paths: seq<Path>, reply: Reply, known: set<Path>,
                          roots: seq<Path>, maximumDepth: int, now: int, catalog: Catalog)
  {
    after == TableAfter(before, order, paths, reply, known, roots, maximumDepth, now, catalog)
  }

  // The whole batch failed alike.
  lemma FailureBecomes(after: map<Path, Read>, before: map<Path, Read>, order: seq<Path>, paths: seq<Path>, reply: Reply, category: Category,
                       known: set<Path>, roots: seq<Path>, maximumDepth: int, now: int, catalog: Catalog)
    requires after == AllApplied(before, paths, Step.Fail(category, now), catalog)
    requires match reply
             case CancelledReply => category == Cancelled
             case AuthenticationReply => category == Authentication
             case ErrorReply(error, status) => category == FailureCategory(error, status)
             case TimeoutReply => false
             case Results(items) => AnyStatus(items, paths, 401) && category == Authentication
    ensures Becomes(after, before, order, paths, reply, known, roots, maximumDepth, now, catalog) == true
  {
  }

  lemma ExpiryBecomes(after: map<Path, Read>, between: map<Path, Read>, before: map<Path, Read>, order: seq<Path>, paths: seq<Path>,
                      known: set<Path>, roots: seq<Path>, maximumDepth: int, now: int, catalog: Catalog)
    requires between == AllApplied(before, order, Postpone(now), catalog)
    requires after == AllApplied(between, paths, Step.Fail(Timeout, now), catalog)
    ensures Becomes(after, before, order, paths, TimeoutReply, known, roots, maximumDepth, now, catalog) == true
  {
  }

  /** The reads after one batch: what the budget no longer admits is left out, the selected ones are started and then answered. */
  ghost function BatchAfter(before: map<Path, Read>, leftOut: seq<Path>, order: seq<Path>, paths: seq<Path>, reply: Reply, known: set<Path>,
                            roots: seq<Path>, maximumDepth: int, now: int, later: int, catalog: Catalog): map<Path, Read>
  {
    TableAfter(AllApplied(AllApplied(before, leftOut, LeaveOut, catalog), paths, Step.Start(now), catalog), order, paths, reply, known,
               roots, maximumDepth, later, catalog)
  }

  // One reply settles its own read and leaves settled ones settled.
  lemma ItemSettles(table: map<Path, Read>, p: Path, result: Option<Item>, known: set<Path>, roots: seq<Path>, maximumDepth: int,
                    now: int, catalog: Catalog)
    requires p in table && table[p].attempts >= 1
    ensures var after, verdict := ItemAfter(table, p, result, known, roots, maximumDepth, now, catalog), Verdict(p, result, catalog);
            && p in after && Settled(after[p], verdict, now)
            && forall q, c :: q in table && q != p && Settled(table[q], c, now) ==> q in after && Settled(after[q], c, now)
  {
    if Verdict(p, result, catalog).None? {
      var resource := result.value.resource.value;
      var received := table[p := table[p].Received(resource, now, catalog)];
      var s := Step.Schedule(table[p].depth + 1, true, false, maximumDepth);
      StaysSettled(received, resource.references, s, known, roots, catalog, p, None, now);
      forall q, c | q in table && q != p && Settled(table[q], c, now)
        ensures q in Queued(received, resource.references, s, known, roots, catalog)
                && Settled(Queued(received, resource.references, s, known, roots, catalog)[q], c, now)
      {
        StaysSettled(received, resource.references, s, known, roots, catalog, q, c, now);
      }
    }
  }

  lemma ReceivedIs(before: map<Path, Read>, after: map<Path, Read>, resource: Resource, known: set<Path>, roots: seq<Path>,
                   maximumDepth: int, now: int, catalog: Catalog)
    requires resource.path in before
    requires after == before[resource.path := before[resource.path].Received(resource, now, catalog)]
    ensures Usable(resource, catalog) ==>
              Queued(after, resource.references, Step.Schedule(after[resource.path].depth + 1, true, false, maximumDepth), known, roots, catalog)
              == Accepted(before, resource, known, roots, maximumDepth, now, catalog)
    ensures !Usable(resource, catalog) ==> after == before[resource.path := before[resource.path].Failed(InvalidValue, now, catalog)]
  {
  }

  lemma AppliedToOne(table: map<Path, Read>, p: Path, s: Step, catalog: Catalog)
    requires p in table
    ensures AllApplied(table, [p], s, catalog) == table[p := Apply(table[p], s, catalog)]
  {
  }

  /** The outcome of a batch tells the state of each of its reads. */
  ghost predicate Accounts(outcome: Outcome, paths: seq<Path>, table: map<Path, Read>, at: int) {
    match outcome
    case Skipped => paths == []
    case Raised(category) => AllSettled(paths, Some(category), table, at)
    case Completed(outcomes, _) => |outcomes| == |paths| && EachSettled(outcomes, paths, table, at)
  }

  /** What a reply makes of a batch as a whole. */
  ghost predicate Answers(outcome: Outcome, paths: seq<Path>, reply: Reply, catalog: Catalog) {
    match reply
    case CancelledReply => outcome == Raised(Cancelled)
    case AuthenticationReply => outcome == Raised(Authentication)
    case TimeoutReply => outcome == Completed(Alike(paths, FailureCategory(TimeoutError, None)), false)
    case ErrorReply(error, status) => outcome == Completed(Alike(paths, FailureCategory(error, status)), error == RateLimitError)
    case Results(items) =>
      if AnyStatus(items, paths, 401) then outcome == Raised(Authentication)
      else outcome.Completed? && outcome.rateLimited == AnyStatus(items, paths, 429) && Judges(outcome.outcomes, paths, items, catalog)
  }

  /** Each path has the verdict on the last entry that the reply has for it. */
  ghost predicate Judges(outcomes: seq<(Path, Option<Category>)>, paths: seq<Path>, items: seq<Item>, catalog: Catalog) {
    |outcomes| == |paths| && JudgesFirst(outcomes, paths, items, catalog)
  }

  ghost predicate JudgesFirst(outcomes: seq<(Path, Option<Category>)>, paths: seq<Path>, items: seq<Item>, catalog: Catalog) {
    |outcomes| <= |paths|
    && forall i :: 0 <= i < |outcomes| ==> outcomes[i] == (paths[i], Verdict(paths[i], Lookup(items, paths[i]), catalog))
  }

  /** One batch was requested, and this is its outcome. */
  ghost predicate IsRead(before: seq<Exchange>, after: seq<Exchange>, paths: seq<Path>, outcome: Outcome, catalog: Catalog) {
    |after| == |before| + 1 && after[..|before|] == before && after[|before|].paths == paths
    && Answers(outcome, paths, after[|before|].reply, catalog)
  }

  ghost predicate AllSettled(paths: seq<Path>, category: Option<Category>, table: map<Path, Read>, at: int) {
    forall i :: 0 <= i < |paths| ==> paths[i] in table && Settled(table[paths[i]], category, at)
  }

  ghost predicate EachSettled(outcomes: seq<(Path, Option<Category>)>, paths: seq<Path>, table: map<Path, Read>, at: int)
    requires |outcomes| <= |paths|
  {
    forall i :: 0 <= i < |outcomes| ==> outcomes[i].0 == paths[i] && paths[i] in table && Settled(table[paths[i]], outcomes[i].1, at)
  }

  lemma FailedSettles(table: map<Path, Read>, paths: seq<Path>, category: Category, now: int, catalog: Catalog)
    requires forall i :: 0 <= i < |paths| ==> paths[i] in table && table[paths[i]].attempts >= 1
    ensures AllSettled(paths, Some(category), AllApplied(table, paths, Step.Fail(category, now), catalog), now)
  {
  }

  // A read in flight was started.
  lemma InflightWasStarted(table: map<Path, Read>, history: map<Path, seq<StartupData.Step>>, origin: map<Path, int>, catalog: Catalog,
                           clock: int, p: Path)
    requires Replayed(table, history, origin, catalog, clock) && p in InflightOf(table)
    ensures table[p].attempts >= 1
  {
    LegalIsSound(p, origin[p], history[p], catalog);
  }

  // After one more reply, one more read is settled as its outcome says.
  lemma SettlesNext(table: map<Path, Read>, paths: seq<Path>, i: nat, outcomes: seq<(Path, Option<Category>)>, result: Option<Item>,
                    known: set<Path>, roots: seq<Path>, maximumDepth: int, now: int, catalog: Catalog)
    requires i == |outcomes| < |paths| && NoRepeats(paths) && EachSettled(outcomes, paths, table, now)
    requires paths[i] in table && table[paths[i]].attempts >= 1
    ensures EachSettled(outcomes + [(paths[i], Verdict(paths[i], result, catalog))], paths,
                        ItemAfter(table, paths[i], result, known, roots, maximumDepth, now, catalog), now)
  {
    ItemSettles(table, paths[i], result, known, roots, maximumDepth, now, catalog);
  }

  lemma NextInflight(paths: seq<Path>, i: nat)
    requires i < |paths| && NoRepeats(paths)
    ensures paths[i] in Elements(paths[i..]) && Elements(paths[i..]) - {paths[i]} == Elements(paths[i + 1..])
  {
    assert paths[i..] == [paths[i]] + paths[i + 1..];
  }

  lemma AlikeSettled(paths: seq<Path>, category: Category, table: map<Path, Read>, at: int)
    requires AllSettled(paths, Some(category), table, at)
    ensures EachSettled(Alike(paths, category), paths, table, at)
  {
  }

  function Alike(paths: seq<Path>, category: Category): (r: seq<(Path, Option<Category>)>)
    ensures |r| == |paths|
  {
    seq(|paths|, i requires 0 <= i < |paths| => (paths[i], Some(category)))
  }

  class StartupReader {
    const state: StartupGatewayData
    const roots: seq<Path>
    ghost var exchanges: seq<Exchange>

    constructor (state: StartupGatewayData, roots: seq<Path>)
      ensures this.state == state && this.roots == roots && exchanges == []
    {
      this.state, this.roots, exchanges := state, roots, [];
    }

    // The cloud answers a batch with anything.
    method Request(paths: seq<Path>) returns (reply: Reply)
      modifies `exchanges
      ensures exchanges == old(exchanges) + [Exchange(paths, reply)]
    {
      reply := *;
      exchanges := exchanges + [Exchange(paths, reply)];
    }

    /** Schedules the references of a container, as `Queued` specifies. */
    method QueueReferences(resource: Resource, known: set<Path>, ghost s: Step)
      requires state.Valid() && resource.path in state.table
      requires s == Step.Schedule(state.table[resource.path].depth + 1, true, false, state.maximumDepth)
      modifies state`table, state`order, state`history, state`origin, state`omittedLicense
      ensures state.Valid() && state.Inflight() == old(state.Inflight())
      ensures state.table == Queued(old(state.table), resource.references, s, known, roots, state.catalog)
      ensures state.omittedLicense == (old(state.omittedLicense) || LICENSE_PATH in resource.references)
    {
      var depth := state.table[resource.path].depth;
      for i := 0 to |resource.references|
        invariant state.Valid() && state.Inflight() == old(state.Inflight())
        invariant state.table == Queued(old(state.table), resource.references[..i], s, known, roots, state.catalog)
        invariant state.omittedLicense == (old(state.omittedLicense) || LICENSE_PATH in resource.references[..i])
      {
        QueuedNext(old(state.table), resource.references, i, s, known, roots, state.catalog);
        QueueReference(resource.references[i], depth + 1, known, s);
      }
      assert resource.references[..|resource.references|] == resource.references;
    }

    method QueueReference(p: Path, depth: int, known: set<Path>, ghost s: Step)
      requires state.Valid() && s == Step.Schedule(depth, true, false, state.maximumDepth)
      modifies state`table, state`order, state`history, state`origin, state`omittedLicense
      ensures state.Valid() && state.Inflight() == old(state.Inflight())
      ensures state.table == QueuedOne(old(state.table), p, s, known, roots, state.catalog)
      ensures state.omittedLicense == (old(state.omittedLicense) || p == LICENSE_PATH)
    {
      if p == LICENSE_PATH {
        state.OmitLicense();
      } else if p !in known && Under(p, roots) {
        state.Schedule(p, depth, true, false, true);
      }
    }

    method FailOne(p: Path, category: Category, now: int)
      requires state.Valid() && now >= state.clock && p in state.Inflight()
      modifies state`table, state`history, state`clock
      ensures state.Valid() && state.clock == now && state.Inflight() == old(state.Inflight()) - {p}
      ensures p in old(state.table) && state.table == old(state.table)[p := old(state.table)[p].Failed(category, now, state.catalog)]
    {
      assert Elements([p]) == {p};
      AppliedToOne(state.table, p, Step.Fail(category, now), state.catalog);
      state.Fail([p], category, now);
    }

    method ReceiveResource(resource: Resource, known: set<Path>, now: int) returns (category: Option<Category>)
      requires state.Valid() && now >= state.clock && resource.path in state.Inflight()
      modifies state`table, state`order, state`history, state`origin, state`omittedLicense, state`clock
      ensures state.Valid() && state.clock == now && state.Inflight() == old(state.Inflight()) - {resource.path}
      ensures category == if Usable(resource, state.catalog) then None else Some(InvalidValue)
      ensures resource.path in old(state.table)
      ensures category.Some? ==>
                state.table == old(state.table)[resource.path := old(state.table)[resource.path].Failed(InvalidValue, now, state.catalog)]
      ensures category.None? ==>
                state.table == Accepted(old(state.table), resource, known, roots, state.maximumDepth, now, state.catalog)
    {
      ghost var before := state.table;
      var accepted := state.Receive(resource, now);
      if accepted {
        FollowAccepted(resource, known, before, now);
        return None;
      }
      ReceivedIs(before, state.table, resource, known, roots, state.maximumDepth, now, state.catalog);
      category := Some(InvalidValue);
    }

    method FollowAccepted(resource: Resource, known: set<Path>, ghost before: map<Path, Read>, ghost now: int)
      requires state.Valid() && resource.path in before && Usable(resource, state.catalog)
      requires state.table == before[resource.path := before[resource.path].Received(resource, now, state.catalog)]
      modifies state`table, state`order, state`history, state`origin, state`omittedLicense
      ensures state.Valid() && state.Inflight() == old(state.Inflight())
      ensures state.table == Accepted(before, resource, known, roots, state.maximumDepth, now, state.catalog)
    {
      ghost var received := state.table;
      ghost var s := Step.Schedule(received[resource.path].depth + 1, true, false, state.maximumDepth);
      ReceivedIs(before, received, resource, known, roots, state.maximumDepth, now, state.catalog);
      QueueReferences(resource, known, s);
      assert state.table == Queued(received, resource.references, s, known, roots, state.catalog);
    }

    /** The reply for one path of the batch, which is no longer in flight afterwards. */
    method ReceiveItem(p: Path, result: Option<Item>, known: set<Path>, now: int)
      returns (category: Option<Category>)
      requires state.Valid() && now >= state.clock && p in state.Inflight()
      modifies state`table, state`order, state`history, state`origin, state`omittedLicense, state`clock
      ensures state.Valid() && state.clock == now && state.Inflight() == old(state.Inflight()) - {p}
      ensures category == Verdict(p, result, state.catalog)
      ensures p in old(state.table)
      ensures state.table == ItemAfter(old(state.table), p, result, known, roots, state.maximumDepth, now, state.catalog)
    {
      if result.Some? && result.value.resource.Some? && result.value.resource.value.path == p {
        category := ReceiveResource(result.value.resource.value, known, now);
        return;
      }
      if result.None? {
        category := Some(MissingResult);
      } else if result.value.resource.Some? || (result.value.status.Some? && 200 <= result.value.status.value < 300) {
        category := Some(InvalidValue);
      } else {
        category := Some(FailureCategory(result.value.error, result.value.status));
      }
      FailOne(p, category.value, now);
    }

    /** A reply with items: one for another gateway, or for a path that was not requested, changes nothing. */
    method ReceiveBatch(paths: seq<Path>, items: seq<Item>, known: set<Path>, now: int) returns (outcome: Outcome)
      requires state.Valid() && now >= state.clock && NoRepeats(paths) && state.Inflight() == Elements(paths)
      modifies state`table, state`order, state`history, state`origin, state`omittedLicense, state`clock
      ensures state.Valid() && state.Inflight() == {}
      ensures Becomes(state.table, old(state.table), old(state.order), paths, Results(items), known, roots, state.maximumDepth, now,
                      state.catalog) == true
      ensures Accounts(outcome, paths, state.table, now) && Answers(outcome, paths, Results(items), state.catalog) == true
    {
      if AnyStatus(items, paths, 401) {
        outcome := RaiseAll(paths, Authentication, known, Results(items), now);
        return;
      }
      var outcomes := ReceiveAll(paths, items, known, now);
      outcome := Completed(outcomes, AnyStatus(items, paths, 429));
    }

    method ReceiveAll(paths: seq<Path>, items: seq<Item>, known: set<Path>, now: int) returns (outcomes: seq<(Path, Option<Category>)>)
      requires state.Valid() && now >= state.clock && NoRepeats(paths) && state.Inflight() == Elements(paths)
      modifies state`table, state`order, state`history, state`origin, state`omittedLicense, state`clock
      ensures state.Valid() && state.Inflight() == {} && now >= state.clock
      ensures Judges(outcomes, paths, items, state.catalog) && EachSettled(outcomes, paths, state.table, now)
      ensures state.table == ItemsAfter(old(state.table), paths, items, known, roots, state.maximumDepth, now, state.catalog)
    {
      outcomes := [];
      ghost var before := state.table;
      for i := 0 to |paths|
        invariant state.Valid() && now >= state.clock && state.Inflight() == Elements(paths[i..])
        invariant |outcomes| == i && EachSettled(outcomes, paths, state.table, now) == true
        invariant JudgesFirst(outcomes, paths, items, state.catalog) == true
        invariant state.table == ItemsAfter(before, paths[..i], items, known, roots, state.maximumDepth, now, state.catalog)
      {
        outcomes := ReceiveNext(paths, i, items, known, now, outcomes, before);
      }
      assert paths[..|paths|] == paths;
    }

    method ReceiveNext(paths: seq<Path>, i: nat, items: seq<Item>, known: set<Path>, now: int,
                       earlier: seq<(Path, Option<Category>)>, ghost before: map<Path, Read>) returns (outcomes: seq<(Path, Option<Category>)>)
      requires state.Valid() && now >= state.clock && i < |paths| && NoRepeats(paths) && state.Inflight() == Elements(paths[i..])
      requires |earlier| == i && EachSettled(earlier, paths, state.table, now) == true
      requires JudgesFirst(earlier, paths, items, state.catalog) == true
      requires state.table == ItemsAfter(before, paths[..i], items, known, roots, state.maximumDepth, now, state.catalog)
      modifies state`table, state`order, state`history, state`origin, state`omittedLicense, state`clock
      ensures state.Valid() && now >= state.clock && state.Inflight() == Elements(paths[i + 1..])
      ensures |outcomes| == i + 1 && EachSettled(outcomes, paths, state.table, now) == true
      ensures JudgesFirst(outcomes, paths, items, state.catalog) == true
      ensures state.table == ItemsAfter(before, paths[..i + 1], items, known, roots, state.maximumDepth, now, state.catalog)
    {
      NextInflight(paths, i);
      InflightWasStarted(state.table, state.history, state.origin, state.catalog, state.clock, paths[i]);
      ItemsNext(before, paths, i, items, known, roots, state.maximumDepth, now, state.catalog);
      SettlesNext(state.table, paths, i, earlier, Lookup(items, paths[i]), known, roots, state.maximumDepth, now, state.catalog);
      var category := ReceiveItem(paths[i], Lookup(items, paths[i]), known, now);
      outcomes := earlier + [(paths[i], category)];
    }

    // One failure for every read of a batch.
    method FailAll(paths: seq<Path>, category: Category, now: int)
      requires state.Valid() && now >= state.clock && NoRepeats(paths) && state.Inflight() == Elements(paths)
      modifies state`table, state`history, state`clock
      ensures state.Valid() && state.clock == now && state.Inflight() == {}
      ensures AllSettled(paths, Some(category), state.table, now)
      ensures state.table == AllApplied(old(state.table), paths, Step.Fail(category, now), state.catalog)
    {
      forall i | 0 <= i < |paths| ensures paths[i] in state.table && state.table[paths[i]].attempts >= 1 {
        assert paths[i] in Elements(paths);
        InflightWasStarted(state.table, state.history, state.origin, state.catalog, state.clock, paths[i]);
      }
      FailedSettles(state.table, paths, category, now, state.catalog);
      state.Fail(paths, category, now);
    }

    method FailAlike(paths: seq<Path>, category: Category, now: int, rateLimited: bool) returns (outcome: Outcome)
      requires state.Valid() && now >= state.clock && NoRepeats(paths) && state.Inflight() == Elements(paths)
      modifies state`table, state`history, state`clock
      ensures state.Valid() && state.clock == now && state.Inflight() == {}
      ensures outcome == Completed(Alike(paths, category), rateLimited) && Accounts(outcome, paths, state.table, now)
      ensures state.table == AllApplied(old(state.table), paths, Step.Fail(category, now), state.catalog)
    {
      FailAll(paths, category, now);
      AlikeSettled(paths, category, state.table, now);
      outcome := Completed(Alike(paths, category), rateLimited);
    }

    // The failure ends the whole batch, and the caller learns of it.
    method RaiseAll(paths: seq<Path>, category: Category, ghost known: set<Path>, ghost reply: Reply, later: int) returns (outcome: Outcome)
      requires state.Valid() && state.Inflight() == Elements(paths) && NoRepeats(paths) && state.clock <= later
      requires match reply
               case CancelledReply => category == Cancelled
               case AuthenticationReply => category == Authentication
               case Results(items) => AnyStatus(items, paths, 401) && category == Authentication
               case _ => false
      modifies state`table, state`history, state`clock
      ensures state.Valid() && state.Inflight() == {}
      ensures outcome == Raised(category) && Accounts(outcome, paths, state.table, later) == true
      ensures Answers(outcome, paths, reply, state.catalog) == true
      ensures Becomes(state.table, old(state.table), old(state.order), paths, reply, known, roots, state.maximumDepth, later,
                      state.catalog) == true
    {
      ghost var before := state.table;
      FailAll(paths, category, later);
      FailureBecomes(state.table, before, state.order, paths, reply, category, known, roots, state.maximumDepth, later, state.catalog);
      outcome := Raised(category);
    }

    // The request failed, and with it every read of the batch.
    method FailRequest(paths: seq<Path>, error: ErrorKind, status: Option<int>, ghost known: set<Path>, later: int) returns (outcome: Outcome)
      requires state.Valid() && state.Inflight() == Elements(paths) && NoRepeats(paths) && state.clock <= later
      modifies state`table, state`history, state`clock
      ensures state.Valid() && state.Inflight() == {}
      ensures outcome.Completed? && Accounts(outcome, paths, state.table, later) == true
      ensures Answers(outcome, paths, ErrorReply(error, status), state.catalog) == true
      ensures Becomes(state.table, old(state.table), old(state.order), paths, ErrorReply(error, status), known, roots, state.maximumDepth,
                      later, state.catalog) == true
    {
      ghost var before := state.table;
      var category := FailureCategory(error, status);
      outcome := FailAlike(paths, category, later, error == RateLimitError);
      FailureBecomes(state.table, before, state.order, paths, ErrorReply(error, status), category, known, roots, state.maximumDepth,
                     later, state.catalog);
    }

    // The time for supplementary reads is over: what was not sent waits, too.
    method Expire(paths: seq<Path>, ghost known: set<Path>, later: int) returns (outcome: Outcome)
      requires state.Valid() && state.Inflight() == Elements(paths) && NoRepeats(paths) && state.clock <= later
      modifies state`table, state`history, state`clock, state`budgetExhaustions
      ensures state.Valid() && state.Inflight() == {}
      ensures outcome.Completed? && Accounts(outcome, paths, state.table, later) == true
      ensures Answers(outcome, paths, TimeoutReply, state.catalog) == true
      ensures Becomes(state.table, old(state.table), old(state.order), paths, TimeoutReply, known, roots, state.maximumDepth, later,
                      state.catalog) == true
      ensures state.budgetExhaustions == old(state.budgetExhaustions) + 1
    {
      ghost var before := state.table;
      state.BudgetExpired(later, true);
      ghost var between := state.table;
      var category := FailureCategory(TimeoutError, None);
      assert category == Timeout;
      outcome := FailAlike(paths, category, later, false);
      ExpiryBecomes(state.table, between, before, state.order, paths, known, roots, state.maximumDepth, later, state.catalog);
    }

    /** Sends a selected batch. Every handled outcome leaves no read in flight. */
    method Send(paths: seq<Path>, known: set<Path>, now: int, later: int) returns (outcome: Outcome)
      requires state.Valid() && state.Inflight() == {} && state.clock <= now <= later
      requires ReadyIn(paths, state.table, now)
      modifies state, `exchanges
      ensures state.Valid() && state.Inflight() == {}
      ensures IsRead(old(exchanges), exchanges, paths, outcome, state.catalog) == true
      ensures state.requested == old(state.requested) + Elements(paths)
      ensures state.maximumResources == old(state.maximumResources)
      ensures outcome != Skipped && Accounts(outcome, paths, state.table, later) == true
      ensures Becomes(state.table, AllApplied(old(state.table), paths, Step.Start(now), state.catalog), old(state.order), paths,
                      exchanges[|exchanges| - 1].reply, known, roots, state.maximumDepth, later, state.catalog) == true
    {
      state.Start(paths, now);
      assert {} + Elements(paths) == Elements(paths);
      var reply := Request(paths);
      outcome := Deliver(paths, known, reply, later);
    }

    method Deliver(paths: seq<Path>, known: set<Path>, reply: Reply, later: int) returns (outcome: Outcome)
      requires state.Valid() && state.Inflight() == Elements(paths) && NoRepeats(paths) && state.clock <= later
      modifies state`table, state`order, state`history, state`origin, state`omittedLicense, state`clock, state`budgetExhaustions
      ensures state.Valid() && state.Inflight() == {}
      ensures outcome != Skipped && Accounts(outcome, paths, state.table, later) == true
      ensures Becomes(state.table, old(state.table), old(state.order), paths, reply, known, roots, state.maximumDepth, later,
                      state.catalog) == true
      ensures Answers(outcome, paths, reply, state.catalog) == true
    {
      match reply
      case CancelledReply =>
        outcome := RaiseAll(paths, Cancelled, known, reply, later);
      case AuthenticationReply =>
        outcome := RaiseAll(paths, Authentication, known, reply, later);
      case TimeoutReply =>
        outcome := Expire(paths, known, later);
      case ErrorReply(error, status) =>
        outcome := FailRequest(paths, error, status, known, later);
      case Results(items) =>
        outcome := ReceiveBatch(paths, items, known, later);
    }

    /** At most one request, for due reads that the budget of distinct paths admits. */
    method ReadBatch(known: set<Path>, budget: int, backoffActive: bool, now: int, later: int)
      returns (outcome: Outcome, ghost started: seq<Path>)
      requires state.Valid() && state.Inflight() == {} && state.clock <= now <= later
      modifies state, `exchanges
      ensures state.Valid() && state.Inflight() == {}
      ensures if started == [] then exchanges == old(exchanges)
              else IsRead(old(exchanges), exchanges, started, outcome, state.catalog) == true
      ensures |started| <= 30 && ReadyIn(started, old(state.table), now)
      ensures Indexed(old(state.table), old(state.order)) == true
      ensures var selection := SelectionOf(old(state.table), old(state.order), state.catalog, old(state.requested), state.maximumResources, now, 30);
              && started == (if budget <= 0 || backoffActive then [] else selection.paths)
              && state.table == if started == [] then AllApplied(old(state.table), selection.leftOut, LeaveOut, state.catalog)
                                else BatchAfter(old(state.table), selection.leftOut, old(state.order), started,
                                                exchanges[|exchanges| - 1].reply, known, roots, state.maximumDepth, now, later, state.catalog)
      ensures state.requested == old(state.requested) + Elements(started)
      ensures |state.requested| <= Max(|old(state.requested)|, state.maximumResources)
      ensures state.maximumResources == old(state.maximumResources)
      ensures outcome == Skipped <==> started == []
      ensures Accounts(outcome, started, state.table, later)
    {
      ghost var table, requested := state.table, state.requested;
      started := [];
      var paths := state.Due(now, 30);
      if paths == [] || budget <= 0 || backoffActive {
        assert requested + Elements(started) == requested;
        return Skipped, started;
      }
      SelectionReady(table, state.order, state.catalog, requested, state.maximumResources, now, 30);
      started := paths;
      outcome := Send(paths, known, now, later);
    }
  }
}
