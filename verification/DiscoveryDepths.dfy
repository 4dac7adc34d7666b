/**
  How deep a path really is (discovery.py): the depth of a path is the least one ever reported for it, but a path
  that was already requested is not expanded again when it is reported at a smaller depth. What was reported below
  it then keeps the larger depth, and may be given up as too deep although a shorter chain of calls leads to it.
  On `P(x) == true` in contracts see Common.dfy.
 */
module DiscoveryDepths {
  import opened Common
  import opened Discovery

  /** Some call reported `child` below `parent`. */
  ghost predicate IsEdge(log: seq<Entry>, parent: Path, child: Path) {
    exists k :: 0 <= k < |log| && log[k].path == child && log[k].parent == Some(parent)
  }

  /** A path where chains begin: a root call, or a curated child of the site of a known softener. */
  ghost predicate BeginsAt(log: seq<Entry>, rules: Rules, found: map<Path, Resource>, p: Path, depth: int) {
    exists k :: 0 <= k < |log| && log[k].path == p && log[k].depth == depth
                && (IsStart(log[k], rules, found) || IsBelowSoftener(log[k], rules, found))
  }

  ghost predicate IsWalk(log: seq<Entry>, w: seq<Path>) {
    w != [] && forall i :: 0 < i < |w| ==> IsEdge(log, w[i - 1], w[i])
  }

  /** A chain of reported children from a beginning, whatever the depths with which they were reported. */
  ghost predicate LeadsTo(log: seq<Entry>, rules: Rules, found: map<Path, Resource>, w: seq<Path>, first: int, p: Path) {
    IsWalk(log, w) && w[|w| - 1] == p && BeginsAt(log, rules, found, w[0], first)
  }

  /** The depth at which a chain ends. */
  function EndDepth(w: seq<Path>, first: int): int { first + |w| - 1 }

  ghost function DepthOf(log: seq<Entry>, p: Path): int
    requires Reported(log, p)
  {
    BestIsLeast(log, p);
    BestOf(log, p).value.depth
  }

  /** The child has a larger depth than its place below this parent gives it. */
  ghost predicate Stale(log: seq<Entry>, parent: Path, child: Path) {
    IsEdge(log, parent, child) && Reported(log, parent) && Reported(log, child) && DepthOf(log, child) > DepthOf(log, parent) + 1
  }

  /** A stale call, and a chain from its child to `p` that stays within the bound. */
  ghost predicate StaleWithin(log: seq<Entry>, v: seq<Path>, p: Path, maximumDepth: int) {
    && |v| >= 2 && IsWalk(log, v) && v[|v| - 1] == p && Stale(log, v[0], v[1])
    && EndDepth(v, DepthOf(log, v[0])) <= maximumDepth
  }

  lemma EndIsReported(log: seq<Entry>, rules: Rules, found: map<Path, Resource>, w: seq<Path>, first: int, i: nat)
    requires IsWalk(log, w) && BeginsAt(log, rules, found, w[0], first) && i < |w|
    ensures Reported(log, w[i])
  {
    if i > 0 {
      assert IsEdge(log, w[i - 1], w[i]);
    }
  }

  // A path is reported at its depth by a chain of calls, so some chain leads to it at this depth.
  lemma {:induction false} DepthIsAttained(log: seq<Entry>, rules: Rules, found: map<Path, Resource>, p: Path)
    returns (w: seq<Path>, first: int)
    requires AllJustified(log, rules, found) && Reported(log, p)
    ensures LeadsTo(log, rules, found, w, first, p) && EndDepth(w, first) == DepthOf(log, p)
  {
    BestIsLeast(log, p);
    var k :| 0 <= k < |log| && log[k].path == p && log[k].depth == DepthOf(log, p);
    var c := DerivesFromRoot(log, k, rules, found);
    w, first := seq(|c|, i requires 0 <= i < |c| => log[c[i]].path), log[c[0]].depth;
    forall i | 0 < i < |w| ensures IsEdge(log, w[i - 1], w[i]) {
      assert Follows(log[c[i - 1]], log[c[i]], rules, found);
    }
  }

  lemma Joined(log: seq<Entry>, rules: Rules, found: map<Path, Resource>, w: seq<Path>, first: int, v: seq<Path>)
    requires IsWalk(log, v) && LeadsTo(log, rules, found, w, first, v[0])
    ensures LeadsTo(log, rules, found, w + v[1..], first, v[|v| - 1])
    ensures EndDepth(w + v[1..], first) == EndDepth(w, first) + |v| - 1
  {
    var u := w + v[1..];
    forall i | 0 < i < |u| ensures IsEdge(log, u[i - 1], u[i]) {
      if i >= |w| {
        assert u[i] == v[i - |w| + 1] && u[i - 1] == v[i - |w|];
      }
    }
  }

  // Along a chain that ends below the depth of its end, the first path with too large a depth is reached by a stale call.
  lemma {:induction false} StaleOnTheWay(log: seq<Entry>, rules: Rules, found: map<Path, Resource>, w: seq<Path>, first: int)
    returns (i: nat)
    requires IsWalk(log, w) && BeginsAt(log, rules, found, w[0], first)
    requires Reported(log, w[|w| - 1]) && DepthOf(log, w[|w| - 1]) > EndDepth(w, first)
    ensures i + 1 < |w| && Stale(log, w[i], w[i + 1]) && DepthOf(log, w[i]) <= first + i
  {
    BestIsLeast(log, w[0]);
    var n := |w| - 1;
    if n == 0 {
      assert false;
    }
    EndIsReported(log, rules, found, w, first, n - 1);
    if DepthOf(log, w[n - 1]) <= first + n - 1 {
      i := n - 1;
    } else {
      i := StaleOnTheWay(log, rules, found, w[..n], first);
    }
  }

  /** Every reported path has the depth of the shortest chain that leads to it. */
  ghost predicate DepthsAreLeast(log: seq<Entry>, rules: Rules, found: map<Path, Resource>) {
    forall w, first, p :: LeadsTo(log, rules, found, w, first, p) && Reported(log, p) ==> DepthOf(log, p) <= EndDepth(w, first)
  }

  ghost predicate NoneStale(log: seq<Entry>) { forall q, c :: !Stale(log, q, c) }

  // The depths are those of the shortest chains exactly when no call is stale.
  lemma DepthsAreLeastExactly(log: seq<Entry>, rules: Rules, found: map<Path, Resource>)
    requires AllJustified(log, rules, found)
    ensures DepthsAreLeast(log, rules, found) <==> NoneStale(log)
  {
    if DepthsAreLeast(log, rules, found) {
      forall q, c ensures !Stale(log, q, c) {
        if Stale(log, q, c) {
          var w, first := DepthIsAttained(log, rules, found, q);
          Joined(log, rules, found, w, first, [q, c]);
        }
      }
    }
    if NoneStale(log) {
      forall w, first, p | LeadsTo(log, rules, found, w, first, p) && Reported(log, p) ensures DepthOf(log, p) <= EndDepth(w, first) {
        if DepthOf(log, p) > EndDepth(w, first) {
          var i := StaleOnTheWay(log, rules, found, w, first);
        }
      }
    }
  }

  /** No chain of reported children leads to this path within the bound. */
  ghost predicate ReallyTooDeep(log: seq<Entry>, rules: Rules, found: map<Path, Resource>, p: Path) {
    forall w, first :: LeadsTo(log, rules, found, w, first, p) ==> EndDepth(w, first) > rules.maximumDepth
  }

  // A depth-limited path lies within the bound on some chain exactly when a stale call leads to it within the bound.
  lemma TooDeepExactly(queues: seq<Queue>, processed: set<Path>, limited: set<Path>, log: seq<Entry>, rules: Rules,
                       found: map<Path, Resource>, p: Path)
    requires InPlace(queues, processed, limited, log, rules) && AllJustified(log, rules, found) && p in limited
    ensures ReallyTooDeep(log, rules, found, p) <==> forall v :: !StaleWithin(log, v, p, rules.maximumDepth)
  {
    ReportedIsKept(queues, processed, limited, log, rules, p);
    BestIsLeast(log, p);
    if w, first :| LeadsTo(log, rules, found, w, first, p) && EndDepth(w, first) <= rules.maximumDepth {
      var i := StaleOnTheWay(log, rules, found, w, first);
      RestIsStale(log, w, first, i, p, rules.maximumDepth);
    }
    if v :| StaleWithin(log, v, p, rules.maximumDepth) {
      WithinBound(log, rules, found, v, p);
    }
  }

  lemma RestIsStale(log: seq<Entry>, w: seq<Path>, first: int, i: nat, p: Path, maximumDepth: int)
    requires IsWalk(log, w) && i + 1 < |w| && w[|w| - 1] == p && EndDepth(w, first) <= maximumDepth
    requires Stale(log, w[i], w[i + 1]) && DepthOf(log, w[i]) <= first + i
    ensures StaleWithin(log, w[i..], p, maximumDepth)
  {
    var v := w[i..];
    forall j | 0 < j < |v| ensures IsEdge(log, v[j - 1], v[j]) {
      assert v[j] == w[i + j] && v[j - 1] == w[i + j - 1];
    }
  }

  /** A requested path that was reported again later, at a smaller depth than the one recorded for it: it is passed over. */
  ghost predicate Late(log: seq<Entry>, recorded: map<Path, int>, p: Path) {
    p in recorded && exists n, k :: LeastUntil(log, p, recorded[p], n) && n <= k && IsNearer(log, k, p, recorded[p])
  }

  ghost predicate IsNearer(log: seq<Entry>, k: int, p: Path, depth: int) {
    0 <= k < |log| && log[k].path == p && log[k].depth < depth
  }

  // A call below a discovered resource is stale only because the resource was requested too early.
  lemma StaleIsLate(sent: Sent, processed: set<Path>, found: map<Path, Resource>, log: seq<Entry>, rules: Rules, p: Path, c: Path)
    requires Requesting(sent, processed, found, log, rules) && p in found && Steady(rules, found[p], p, c) && Stale(log, p, c)
    ensures Late(log, sent.recorded, p) && DepthOf(log, p) < sent.recorded[p]
  {
    assert FollowedAt(found, sent.recorded, p, log, rules);
    assert RecordedAt(sent.recorded, log, rules.maximumDepth, p);
    BestIsLeast(log, c);
    BestIsLeast(log, p);
    var k :| 0 <= k < |log| && log[k].path == p && log[k].depth == DepthOf(log, p);
    var n :| LeastUntil(log, p, sent.recorded[p], n);
    assert IsNearer(log, k, p, sent.recorded[p]);
  }

  /**
    A chain to `p` within the bound whose first path was passed over. Where its first call is not one of those that
    follow every resource of this path, or there is no resource, the call is stale.
   */
  ghost predicate PassedOver(sent: Sent, found: map<Path, Resource>, log: seq<Entry>, rules: Rules, v: seq<Path>, p: Path) {
    && |v| >= 2 && IsWalk(log, v) && v[|v| - 1] == p
    && Reported(log, v[0]) && EndDepth(v, DepthOf(log, v[0])) <= rules.maximumDepth
    && if v[0] in found && Steady(rules, found[v[0]], v[0], v[1]) then Late(log, sent.recorded, v[0]) else Stale(log, v[0], v[1])
  }

  // A path is given up although it lies within the bound exactly when a path on the way to it was passed over: it had
  // been requested already when it was reported at a smaller depth.
  lemma GivenUpExactly(queues: seq<Queue>, processed: set<Path>, limited: set<Path>, sent: Sent, found: map<Path, Resource>,
                       log: seq<Entry>, rules: Rules, p: Path)
    requires InPlace(queues, processed, limited, log, rules) && AllJustified(log, rules, found) && p in limited
    requires Requesting(sent, processed, found, log, rules)
    ensures !ReallyTooDeep(log, rules, found, p) <==> exists v :: PassedOver(sent, found, log, rules, v, p)
  {
    TooDeepExactly(queues, processed, limited, log, rules, found, p);
    if v :| StaleWithin(log, v, p, rules.maximumDepth) {
      if v[0] in found && Steady(rules, found[v[0]], v[0], v[1]) {
        StaleIsLate(sent, processed, found, log, rules, v[0], v[1]);
      }
      assert PassedOver(sent, found, log, rules, v, p);
    }
    if v :| PassedOver(sent, found, log, rules, v, p) {
      WithinBound(log, rules, found, v, p);
    }
  }

  lemma WithinBound(log: seq<Entry>, rules: Rules, found: map<Path, Resource>, v: seq<Path>, p: Path)
    requires AllJustified(log, rules, found) && IsWalk(log, v) && v[|v| - 1] == p
    requires Reported(log, v[0]) && EndDepth(v, DepthOf(log, v[0])) <= rules.maximumDepth
    ensures !ReallyTooDeep(log, rules, found, p)
  {
    var w, first := DepthIsAttained(log, rules, found, v[0]);
    Joined(log, rules, found, w, first, v);
  }

  /** One turn of a run: the only path of its frontier, the depth taken from the queue, and the reply. */
  datatype Turn = Turn(path: Path, depth: int, resource: Resource)

  /** The calls made by a run of these turns, for a gateway that is no water softener. */
  ghost function Replay(rules: Rules, turns: seq<Turn>): Trail {
    if turns == [] then Trail(Calls(rules.StartRoots(), 0, Root, None), false)
    else
      var before, t := Replay(rules, turns[..|turns| - 1]), turns[|turns| - 1];
      var below := ExpandTrail(rules, t.resource, t.path, t.depth, before.rrcEnabled, false, false);
      Trail(before.calls + below.calls, below.rrcEnabled)
  }

  ghost function RequestedBy(turns: seq<Turn>): set<Path> {
    if turns == [] then {} else RequestedBy(turns[..|turns| - 1]) + {turns[|turns| - 1].path}
  }

  /** Each turn requests the only path that waits in the first queue that is not empty, at the depth it has there. */
  ghost predicate IsRun(rules: Rules, turns: seq<Turn>) {
    turns == []
    || (var earlier, t := turns[..|turns| - 1], turns[|turns| - 1];
        IsRun(rules, earlier) && IsNext(Replay(rules, earlier).calls, RequestedBy(earlier), rules, t.path, t.depth))
  }

  ghost predicate IsNext(log: seq<Entry>, processed: set<Path>, rules: Rules, p: Path, depth: int) {
    var spot := SpotOf(log, processed, rules, p);
    spot.Queued? && spot.depth == depth && forall q :: q != p ==> WaitsLonger(log, processed, rules, q, spot.rank)
  }

  ghost predicate WaitsLonger(log: seq<Entry>, processed: set<Path>, rules: Rules, q: Path, rank: nat) {
    var spot := SpotOf(log, processed, rules, q);
    spot.Queued? ==> rank < spot.rank
  }

  const ROOT := Path("/r")
  const FIRST := Path("/r/a")
  const SECOND := Path("/r/b")
  const LATE := Path("/r/c")
  const LOST := Path("/r/d")
  const SHORTCUT := Path("/r/k")

  function Plain(p: Path, child: Path): Resource { Resource(p, [child], None, None) }

  /** One root with a catalog child, and a bound of three. */
  function ShallowRules(): Rules {
    var tables := Tables(p => None, p => [], p => if p == ROOT then [SHORTCUT] else [], p => [], p => false, s => false);
    Rules(tables, [ROOT], 3, 500, false, false)
  }

  /** References lead from the root over two others to LATE, and the catalog child leads to LATE at once. */
  function LateTurns(): seq<Turn> {
    [Turn(ROOT, 0, Plain(ROOT, FIRST)), Turn(FIRST, 1, Plain(FIRST, SECOND)), Turn(SECOND, 2, Plain(SECOND, LATE)),
     Turn(LATE, 3, Plain(LATE, LOST)), Turn(SHORTCUT, 1, Plain(SHORTCUT, LATE))]
  }

  lemma Differ()
    ensures ROOT != FIRST && ROOT != SECOND && ROOT != LATE && ROOT != LOST && ROOT != SHORTCUT
    ensures FIRST != SECOND && FIRST != LATE && FIRST != LOST && FIRST != SHORTCUT
    ensures SECOND != LATE && SECOND != LOST && SECOND != SHORTCUT && LATE != LOST && LATE != SHORTCUT && LOST != SHORTCUT
  {
    assert |ROOT.text| == 2 && FIRST.text[3] == 'a' && SECOND.text[3] == 'b' && LATE.text[3] == 'c';
    assert LOST.text[3] == 'd' && SHORTCUT.text[3] == 'k';
  }

  lemma NoneExempt(p: Path)
    requires p == ROOT || p == FIRST || p == SECOND || p == LATE || p == LOST || p == SHORTCUT
    ensures !Exempt(ShallowRules(), p)
  {
    assert p.text[1] == 'r' && StartupData.LICENSE_PATH.text[1] == 'g';
  }

  lemma BelowRoot(p: Path)
    requires p in [FIRST, SECOND, LATE, LOST, SHORTCUT]
    ensures p != ROOT && Under(p, Allowed(ShallowRules(), false))
  {
    Differ();
    assert Allowed(ShallowRules(), false)[0] == ROOT && ROOT.text + "/" == "/r/";
    assert p.text[..3] == "/r/" && "/r/" <= p.text;
  }

  /** The calls of one turn: the catalog child of the root, and the one reference. */
  function TurnCalls(p: Path, depth: int, child: Path): seq<Entry> {
    (if p == ROOT then [Entry(SHORTCUT, depth + 1, Catalog, Some(p))] else []) + [Entry(child, depth + 1, Reference, Some(p))]
  }

  lemma TurnTrail(p: Path, depth: int, child: Path)
    requires child in [FIRST, SECOND, LATE, LOST, SHORTCUT]
    ensures ExpandTrail(ShallowRules(), Plain(p, child), p, depth, false, false, false) == Trail(TurnCalls(p, depth, child), false)
  {
    BelowRoot(child);
    var rules := ShallowRules();
    var below := ChildTrail(rules.tables, child, depth + 1, false, false);
    assert below.calls == [];
    assert [child][..0] == [];
    assert FollowTrail(rules, [], depth + 1, p, true, false, false) == Trail([], false);
    assert FollowTrail(rules, [child], depth + 1, p, true, false, false).calls == [Entry(child, depth + 1, Reference, Some(p))];
    assert ChildTrail(rules.tables, p, depth, false, false).calls ==
           if p == ROOT then [Entry(SHORTCUT, depth + 1, Catalog, Some(p))] else [];
  }

  /** All calls of the run. LATE is reported again, at depth two, after it was requested at depth three. */
  function LateLog(): seq<Entry> {
    [Entry(ROOT, 0, Root, None), Entry(SHORTCUT, 1, Catalog, Some(ROOT)), Entry(FIRST, 1, Reference, Some(ROOT)),
     Entry(SECOND, 2, Reference, Some(FIRST)), Entry(LATE, 3, Reference, Some(SECOND)), Entry(LOST, 4, Reference, Some(LATE)),
     Entry(LATE, 2, Reference, Some(SHORTCUT))]
  }

  /** How many calls were made before turn `n`. */
  function CallsBefore(n: nat): nat { if n == 0 then 1 else n + 2 }

  lemma LateCalls(n: nat)
    requires 1 <= n <= 5
    ensures var t := LateTurns()[n - 1];
            LateLog()[..CallsBefore(n)] == LateLog()[..CallsBefore(n - 1)] + TurnCalls(t.path, t.depth, t.resource.references[0])
  {
    Differ();
    var t, log := LateTurns()[n - 1], LateLog();
    if n == 1 {
      assert TurnCalls(t.path, t.depth, FIRST) == [log[1], log[2]];
    } else {
      assert TurnCalls(t.path, t.depth, t.resource.references[0]) == [log[n + 1]];
    }
  }

  function LatePaths(n: nat): set<Path> {
    if n == 0 then {} else if n == 1 then {ROOT} else if n == 2 then {ROOT, FIRST} else if n == 3 then {ROOT, FIRST, SECOND}
    else if n == 4 then {ROOT, FIRST, SECOND, LATE} else {ROOT, FIRST, SECOND, LATE, SHORTCUT}
  }

  lemma PathsNext(n: nat)
    requires n < 5
    ensures LatePaths(n + 1) == LatePaths(n) + {LateTurns()[n].path} && LateTurns()[..n + 1] == LateTurns()[..n] + [LateTurns()[n]]
  {
  }

  lemma ReplayNext(rules: Rules, turns: seq<Turn>, t: Turn, log: seq<Entry>, below: Trail)
    requires Replay(rules, turns) == Trail(log, false)
    requires below == ExpandTrail(rules, t.resource, t.path, t.depth, false, false, false)
    ensures Replay(rules, turns + [t]) == Trail(log + below.calls, below.rrcEnabled)
  {
    assert (turns + [t])[..|turns|] == turns;
  }

  lemma {:induction false} LateReplay(n: nat)
    requires n <= 5
    ensures Replay(ShallowRules(), LateTurns()[..n]) == Trail(LateLog()[..CallsBefore(n)], false)
  {
    if n == 0 {
      assert LateTurns()[..0] == [] && Calls([ROOT], 0, Root, None) == LateLog()[..1];
    } else {
      LateReplay(n - 1);
      var t := LateTurns()[n - 1];
      TurnTrail(t.path, t.depth, t.resource.references[0]);
      LateCalls(n);
      PathsNext(n - 1);
      ReplayNext(ShallowRules(), LateTurns()[..n - 1], t, LateLog()[..CallsBefore(n - 1)],
                 Trail(TurnCalls(t.path, t.depth, t.resource.references[0]), false));
    }
  }

  /** The best report for a path among the first `m` calls. */
  function LateBest(m: nat, p: Path): Option<Best> {
    if p == ROOT && m >= 1 then Some(Best(0, 0))
    else if p == SHORTCUT && m >= 2 then Some(Best(1, 1))
    else if p == FIRST && m >= 3 then Some(Best(1, 0))
    else if p == SECOND && m >= 4 then Some(Best(2, 0))
    else if p == LATE && m >= 5 then Some(Best(if m == 7 then 2 else 3, 0))
    else if p == LOST && m >= 6 then Some(Best(4, 0))
    else None
  }

  lemma {:induction false} LateBests(m: nat, p: Path)
    requires m <= 7
    ensures BestOf(LateLog()[..m], p) == LateBest(m, p)
  {
    if m > 0 {
      LateBests(m - 1, p);
      assert LateLog()[..m] == LateLog()[..m - 1] + [LateLog()[m - 1]];
      BestNext(LateLog()[..m - 1], LateLog()[m - 1]);
      LateBestNext(m - 1, p, LateLog()[m - 1]);
    }
  }

  lemma LateBestNext(m: nat, p: Path, e: Entry)
    requires m < 7 && e == LateLog()[m]
    ensures LateBest(m + 1, p) ==
              if e.path != p then LateBest(m, p)
              else if LateBest(m, p).None? then Some(Best(e.depth, Rank(e.source)))
              else Some(Best(Min(e.depth, LateBest(m, p).value.depth), Min(Rank(e.source), LateBest(m, p).value.rank)))
  {
    Differ();
  }

  /** Where a path is after the first `m` calls. */
  function LateSpot(m: nat, processed: set<Path>, p: Path): Spot {
    var best := LateBest(m, p);
    if best.None? then Nowhere
    else if p in processed then Done
    else if best.value.depth > 3 then TooDeep
    else Queued(best.value.rank, best.value.depth)
  }

  lemma LateSpots(m: nat, processed: set<Path>, p: Path)
    requires m <= 7
    ensures SpotOf(LateLog()[..m], processed, ShallowRules(), p) == LateSpot(m, processed, p)
  {
    LateBests(m, p);
    if LateBest(m, p).Some? {
      NoneExempt(p);
    }
  }

  lemma LateNext(n: nat)
    requires n < 5
    ensures IsNext(LateLog()[..CallsBefore(n)], LatePaths(n), ShallowRules(), LateTurns()[n].path, LateTurns()[n].depth)
  {
    var m, t, done := CallsBefore(n), LateTurns()[n], LatePaths(n);
    Differ();
    LateSpots(m, done, t.path);
    var rank := if n == 4 then 1 else 0;
    assert LateSpot(m, done, t.path) == Queued(rank, t.depth);
    forall q | q != t.path ensures WaitsLonger(LateLog()[..m], done, ShallowRules(), q, rank) {
      LateSpots(m, done, q);
    }
  }

  lemma RunNext(rules: Rules, turns: seq<Turn>, t: Turn, longer: seq<Turn>, log: seq<Entry>, processed: set<Path>, more: set<Path>)
    requires longer == turns + [t] && more == processed + {t.path} && IsRun(rules, turns) == true
    requires Replay(rules, turns) == Trail(log, false) && processed == RequestedBy(turns)
    requires IsNext(log, processed, rules, t.path, t.depth) == true
    ensures IsRun(rules, longer) == true && RequestedBy(longer) == more
  {
    assert longer[..|longer| - 1] == turns;
  }

  lemma {:induction false} LateIsRun(n: nat)
    requires n <= 5
    ensures IsRun(ShallowRules(), LateTurns()[..n]) == true && RequestedBy(LateTurns()[..n]) == LatePaths(n)
  {
    if n > 0 {
      LateIsRun(n - 1);
      LateRunNext(n - 1, ShallowRules(), LateTurns()[..n - 1], LateTurns()[..n]);
    }
  }

  lemma LateRunNext(n: nat, rules: Rules, turns: seq<Turn>, longer: seq<Turn>)
    requires n < 5 && rules == ShallowRules() && turns == LateTurns()[..n] && longer == LateTurns()[..n + 1]
    requires IsRun(rules, turns) == true && RequestedBy(turns) == LatePaths(n)
    ensures IsRun(rules, longer) == true && RequestedBy(longer) == LatePaths(n + 1)
  {
    LateReplay(n);
    LateNext(n);
    PathsNext(n);
    RunNext(rules, turns, LateTurns()[n], longer, LateLog()[..CallsBefore(n)], LatePaths(n), LatePaths(n + 1));
  }

  lemma LateChain()
    ensures LeadsTo(LateLog(), ShallowRules(), map[], [ROOT, SHORTCUT, LATE, LOST], 0, LOST) == true
  {
    var log, w := LateLog(), [ROOT, SHORTCUT, LATE, LOST];
    assert log[1].path == SHORTCUT && log[6].path == LATE && log[5].path == LOST && log[0].path == ROOT;
    assert IsEdge(log, ROOT, SHORTCUT) && IsEdge(log, SHORTCUT, LATE) && IsEdge(log, LATE, LOST);
    assert IsStart(log[0], ShallowRules(), map[]);
  }

  lemma LateEnd(p: Path)
    ensures !SpotOf(LateLog(), LatePaths(5), ShallowRules(), p).Queued?
    ensures p == LOST ==> SpotOf(LateLog(), LatePaths(5), ShallowRules(), p) == TooDeep
  {
    Differ();
    assert LateLog()[..7] == LateLog();
    LateSpots(7, LatePaths(5), p);
  }

  // LATE was requested at depth three, when it had been reported at that depth only.
  lemma LateIsLate(log: seq<Entry>)
    requires log == LateLog()
    ensures Late(log, map[LATE := 3], LATE) == true
  {
    Differ();
    assert log[..6][4] == log[4];
    assert LeastUntil(log, LATE, 3, 6) && IsNearer(log, 6, LATE, 3);
  }

  lemma LateEnds(log: seq<Entry>, processed: set<Path>)
    requires log == LateLog() && processed == LatePaths(5)
    ensures forall p :: !SpotOf(log, processed, ShallowRules(), p).Queued?
    ensures SpotOf(log, processed, ShallowRules(), LOST) == TooDeep
  {
    forall p ensures !SpotOf(log, processed, ShallowRules(), p).Queued? {
      LateEnd(p);
    }
    LateEnd(LOST);
  }

  lemma LateWhole(turns: seq<Turn>, log: seq<Entry>)
    requires turns == LateTurns()[..5] && log == LateLog()
    ensures log == Replay(ShallowRules(), turns).calls && turns[3].path == LATE && turns[3].depth == 3
  {
    LateReplay(5);
    assert log[..7] == log;
  }

  // A run that ends with a path given up as too deep, although three calls lead to it from the root: LATE, before it on
  // the way, was requested at depth three before it was reported at depth two.
  lemma GivesUpTooEarly() returns (turns: seq<Turn>, log: seq<Entry>, processed: set<Path>)
    ensures ShallowRules().maximumDepth == 3 && IsRun(ShallowRules(), turns) == true && |turns| == 5
    ensures log == Replay(ShallowRules(), turns).calls && processed == RequestedBy(turns)
    ensures turns[3].path == LATE && turns[3].depth == 3 && Late(log, map[LATE := 3], LATE) == true
    ensures forall p :: !SpotOf(log, processed, ShallowRules(), p).Queued?
    ensures SpotOf(log, processed, ShallowRules(), LOST) == TooDeep
    ensures LeadsTo(log, ShallowRules(), map[], [ROOT, SHORTCUT, LATE, LOST], 0, LOST) == true
    ensures EndDepth([ROOT, SHORTCUT, LATE, LOST], 0) == 3
  {
    turns, log, processed := LateTurns()[..5], LateLog(), LatePaths(5);
    LateWhole(turns, log);
    LateIsRun(5);
    LateChain();
    LateIsLate(log);
    LateEnds(log, processed);
  }
}
