/**
  Bounded discovery of the resource reference tree (discovery.py): three queues by source, a processed
  set, a depth-limited set, and a budget of distinct paths shared with the start-up reads. The cloud may
  answer every request with anything. The log records every call that scheduled a path.
  On `P(x) == true` in contracts see Common.dfy.
 */
module Discovery {
  import opened Common
  import StartupData

  const MAX_BULK_PATHS: nat := 30
  const SOFTENER_ROOT := Path("/swCircuits")
  const SOFTENER_SITE := Path("/swCircuits/sw1")
  const ZONE_LIST := Path("/zones/list")
  const PROGRAM_ROOT := Path("/programs")
  const PROGRAM_LIST := Path("/programs/list")
  const MODEL_PATH := Path("/system/appliance/model")
  const SYSTEM_PATH := Path("/system")
  const SOFTENER_FIRST_ROOTS: seq<Path> := [Path("/notifications"), Path("/gateway"), Path("/system"), SOFTENER_ROOT]
  const SOFTENER_SYSTEM_PROBES: seq<Path> := [MODEL_PATH, Path("/system/appliance/versionFirmware")]

  datatype Source = Root | Reference | Catalog | Optional

  /** The queue of a source; the queue with the smallest number is emptied first. */
  function Rank(s: Source): (r: nat)
    ensures r < 3
  {
    match s
    case Optional => 2
    case Catalog => 1
    case _ => 0
  }

  // The order of the queues: what the gateway advertises, what the tables expect, and what is merely tried.
  lemma RankExactly(a: Source, b: Source)
    ensures Rank(a) < Rank(b) <==> (b == Optional && a != Optional) || (b == Catalog && (a == Root || a == Reference))
  {
  }

  /** A reply: what it references, the paths of its identifier list if it is a valid one, its text value. */
  datatype Resource = Resource(path: Path, references: seq<Path>, listed: Option<seq<Path>>, text: Option<string>)

  /** The reviewed tables: where a zone path is rooted, and the curated children below a path. */
  datatype Tables = Tables(zoneRoot: Path -> Option<Path>, rrcFields: Path -> seq<Path>, catalog: Path -> seq<Path>,
                           optional: Path -> seq<Path>, isStartup: Path -> bool, isSoftenerModel: string -> bool)

  /** The fixed inputs of a run. `softener` says that the gateway itself is known to be a water softener. */
  datatype Rules = Rules(tables: Tables, roots: seq<Path>, maximumDepth: int, maximumResources: int,
                         recovering: bool, softener: bool)
  {
    // References to softener circuits are followed for every gateway, whatever its family.
    function AllowedRoots(): seq<Path> { roots + [SOFTENER_ROOT] }

    function StartRoots(): seq<Path> { if softener then SOFTENER_FIRST_ROOTS else roots }
  }

  /** Paths that discovery never requests itself. */
  ghost predicate Exempt(rules: Rules, p: Path) {
    p == StartupData.LICENSE_PATH || (rules.recovering && rules.tables.isStartup(p))
  }

  /** A dictionary in insertion order: path to depth. */
  datatype Queue = Queue(order: seq<Path>, depths: map<Path, int>) {
    ghost predicate Ok() { RepeatFree(order) && forall p :: p in depths <==> p in order }

    function Put(p: Path, depth: int): (q: Queue)
      requires Ok()
      ensures q.Ok() == true && q.depths == depths[p := depth]
    {
      assert (order + [p])[..|order|] == order;
      Queue(if p in depths then order else order + [p], depths[p := depth])
    }

    function Drop(gone: set<Path>): (q: Queue)
      requires Ok()
      ensures q.Ok() == true && q.depths == depths - gone
    {
      Queue(Without(order, gone), depths - gone)
    }
  }

  function Without(order: seq<Path>, gone: set<Path>): (r: seq<Path>)
    ensures forall p :: p in r <==> p in order && p !in gone
    ensures RepeatFree(order) ==> RepeatFree(r)
  {
    if order == [] then []
    else
      var front, last := Without(order[..|order| - 1], gone), order[|order| - 1];
      assert (front + [last])[..|front|] == front;
      if last in gone then front else front + [last]
  }

  ghost predicate ComesBefore(order: seq<Path>, p: Path, q: Path) { exists i, j :: 0 <= i < j < |order| && order[i] == p && order[j] == q }

  // What stays in a queue keeps its order.
  lemma {:induction false} WithoutKeepsOrder(order: seq<Path>, gone: set<Path>, p: Path, q: Path)
    ensures ComesBefore(Without(order, gone), p, q) <==> ComesBefore(order, p, q) && p !in gone && q !in gone
  {
    if order != [] {
      var front, last := order[..|order| - 1], order[|order| - 1];
      WithoutKeepsOrder(front, gone, p, q);
      LastComes(front, last, p, q);
      LastComes(Without(front, gone), last, p, q);
      assert order == front + [last];
    }
  }

  lemma LastComes(front: seq<Path>, last: Path, p: Path, q: Path)
    ensures ComesBefore(front + [last], p, q) <==> ComesBefore(front, p, q) || (p in front && q == last)
  {
    var order := front + [last];
    if i, j :| 0 <= i < j < |order| && order[i] == p && order[j] == q {
      assert j < |front| ==> front[i] == p && front[j] == q;
      assert j == |front| ==> front[i] == p;
    }
    if i, j :| 0 <= i < j < |front| && front[i] == p && front[j] == q {
      assert order[i] == p && order[j] == q;
    }
    if p in front && q == last {
      var i :| 0 <= i < |front| && front[i] == p;
      assert order[i] == p && order[|front|] == q;
    }
  }

  // A path joins its queue at the end, and keeps its place when it is reported again.
  lemma PutKeepsOrder(queue: Queue, p: Path, depth: int, a: Path, b: Path)
    requires queue.Ok()
    ensures ComesBefore(queue.Put(p, depth).order, a, b) <==>
              ComesBefore(queue.order, a, b) || (p !in queue.order && a in queue.order && b == p)
  {
    LastComes(queue.order, p, a, b);
  }

  // The roots of a known water softener are few; its circuits may be referenced on every gateway.
  lemma RootsExactly(rules: Rules, p: Path, rrcEnabled: bool)
    ensures p in rules.StartRoots() <==>
              if rules.softener then p.text in ["/notifications", "/gateway", "/system", "/swCircuits"] else p in rules.roots
    ensures p in Allowed(rules, rrcEnabled) <==> p in rules.roots || p.text == "/swCircuits" || (rrcEnabled && p.text == "/programs")
  {
    assert SOFTENER_FIRST_ROOTS[0].text == "/notifications" && SOFTENER_FIRST_ROOTS[1].text == "/gateway";
    assert SOFTENER_FIRST_ROOTS[2].text == "/system" && SOFTENER_FIRST_ROOTS[3].text == "/swCircuits";
    assert SOFTENER_ROOT.text == "/swCircuits" && PROGRAM_ROOT.text == "/programs";
    assert p.text == "/swCircuits" ==> p == SOFTENER_ROOT;
    assert p.text == "/programs" ==> p == PROGRAM_ROOT;
    forall i | 0 <= i < 4 ensures p.text == SOFTENER_FIRST_ROOTS[i].text <==> p == SOFTENER_FIRST_ROOTS[i] {
    }
  }

  /** One call that scheduled a path, and the path below which it was found. */
  datatype Entry = Entry(path: Path, depth: int, source: Source, parent: Option<Path>)

  datatype Best = Best(depth: int, rank: nat)

  /** The least depth and the best source ever reported for a path. */
  ghost function BestOf(log: seq<Entry>, p: Path): Option<Best> {
    if log == [] then None
    else
      var earlier, e := BestOf(log[..|log| - 1], p), log[|log| - 1];
      if e.path != p then earlier
      else if earlier.None? then Some(Best(e.depth, Rank(e.source)))
      else Some(Best(Min(e.depth, earlier.value.depth), Min(Rank(e.source), earlier.value.rank)))
  }

  ghost predicate Logged(log: seq<Entry>, p: Path, depth: int) {
    exists k :: 0 <= k < |log| && log[k].path == p && log[k].depth == depth
  }

  // The best depth and rank are lower bounds, and the depth was really scheduled.
  lemma {:induction false} BestIsLeast(log: seq<Entry>, p: Path)
    ensures BestOf(log, p).None? <==> forall k :: 0 <= k < |log| ==> log[k].path != p
    ensures forall k :: 0 <= k < |log| && log[k].path == p ==>
              BestOf(log, p).value.depth <= log[k].depth && BestOf(log, p).value.rank <= Rank(log[k].source)
    ensures BestOf(log, p).Some? ==> Logged(log, p, BestOf(log, p).value.depth) && BestOf(log, p).value.rank < 3
    ensures BestOf(log, p).Some? ==>
              exists k :: 0 <= k < |log| && log[k].path == p && Rank(log[k].source) == BestOf(log, p).value.rank
  {
    if log != [] {
      var front := log[..|log| - 1];
      BestIsLeast(front, p);
      if BestOf(front, p).Some? {
        var k :| 0 <= k < |front| && front[k].path == p && front[k].depth == BestOf(front, p).value.depth;
        var m :| 0 <= m < |front| && front[m].path == p && Rank(front[m].source) == BestOf(front, p).value.rank;
        assert log[k] == front[k] && log[m] == front[m];
      }
    }
  }

  /** Where a path must be, according to the log and the paths already requested. */
  datatype Spot = Nowhere | Done | TooDeep | Queued(rank: nat, depth: int)

  ghost function SpotOf(log: seq<Entry>, processed: set<Path>, rules: Rules, p: Path): Spot {
    var best := BestOf(log, p);
    if best.None? || Exempt(rules, p) then Nowhere
    else if p in processed then Done
    else if best.value.depth > rules.maximumDepth then TooDeep
    else Queued(best.value.rank, best.value.depth)
  }

  /** A path is where it must be, and nowhere else. */
  ghost predicate IsAt(queues: seq<Queue>, processed: set<Path>, limited: set<Path>, p: Path, spot: Spot)
    requires |queues| == 3
  {
    && (p in processed <==> spot == Done)
    && (p in limited <==> spot == TooDeep)
    && (forall i :: 0 <= i < 3 ==> (p in queues[i].depths <==> spot.Queued? && spot.rank == i))
    && (spot.Queued? ==> spot.rank < 3 && queues[spot.rank].depths[p] == spot.depth)
  }

  ghost predicate InPlace(queues: seq<Queue>, processed: set<Path>, limited: set<Path>, log: seq<Entry>, rules: Rules) {
    && |queues| == 3 && (forall i :: 0 <= i < 3 ==> queues[i].Ok() == true)
    && forall p :: PlacedAt(queues, processed, limited, log, rules, p)
  }

  ghost predicate PlacedAt(queues: seq<Queue>, processed: set<Path>, limited: set<Path>, log: seq<Entry>, rules: Rules, p: Path)
    requires |queues| == 3
  {
    IsAt(queues, processed, limited, p, SpotOf(log, processed, rules, p))
  }

  /** The source recorded for a path is the best one ever reported. */
  ghost predicate SourcesBest(sources: map<Path, Source>, log: seq<Entry>) {
    forall p :: SourceBest(sources, log, p)
  }

  ghost predicate SourceBest(sources: map<Path, Source>, log: seq<Entry>, p: Path) {
    if p in sources then BestOf(log, p).Some? && Rank(sources[p]) == BestOf(log, p).value.rank else BestOf(log, p).None?
  }

  lemma BestNext(log: seq<Entry>, e: Entry)
    ensures forall p :: p != e.path ==> BestOf(log + [e], p) == BestOf(log, p)
    ensures BestOf(log + [e], e.path) ==
              if BestOf(log, e.path).None? then Some(Best(e.depth, Rank(e.source)))
              else Some(Best(Min(e.depth, BestOf(log, e.path).value.depth), Min(Rank(e.source), BestOf(log, e.path).value.rank)))
  {
    assert (log + [e])[..|log|] == log;
  }

  lemma SourcesNext(sources: map<Path, Source>, log: seq<Entry>, e: Entry)
    requires SourcesBest(sources, log)
    ensures SourcesBest(SourcesAfter(sources, e), log + [e])
  {
    BestNext(log, e);
    forall p ensures SourceBest(SourcesAfter(sources, e), log + [e], p) {
      assert SourceBest(sources, log, p);
    }
  }

  ghost function SourcesAfter(sources: map<Path, Source>, e: Entry): map<Path, Source> {
    if e.path in sources && Rank(sources[e.path]) <= Rank(e.source) then sources else sources[e.path := e.source]
  }

  /** Moves a path to the queue of its rank. */
  function Moved(queues: seq<Queue>, p: Path, rank: nat, depth: int): (r: seq<Queue>)
    requires |queues| == 3 && forall i :: 0 <= i < 3 ==> queues[i].Ok() == true
    ensures |r| == 3 && forall i :: 0 <= i < 3 ==> r[i].Ok() == true
  {
    seq(3, i requires 0 <= i < 3 => if i == rank then queues[i].Put(p, depth) else queues[i].Drop({p}))
  }

  lemma MovedAt(queues: seq<Queue>, p: Path, rank: nat, depth: int, q: Path, i: nat)
    requires |queues| == 3 && (forall j :: 0 <= j < 3 ==> queues[j].Ok() == true) && i < 3
    ensures var moved := Moved(queues, p, rank, depth);
            && (q in moved[i].depths <==> if q == p then i == rank else q in queues[i].depths)
            && (q in moved[i].depths ==> moved[i].depths[q] == if q == p then depth else queues[i].depths[q])
  {
  }

  /** The depth of a call, relaxed by the depth at which the path is already queued. */
  function RelaxedDepth(queues: seq<Queue>, p: Path, depth: int): int
    requires |queues| == 3
  {
    var d0 := if p in queues[0].depths then Min(depth, queues[0].depths[p]) else depth;
    var d1 := if p in queues[1].depths then Min(d0, queues[1].depths[p]) else d0;
    if p in queues[2].depths then Min(d1, queues[2].depths[p]) else d1
  }

  // A call that changes no queue is right when the path is exempt, already requested, or too deep.
  lemma StaysInPlace(queues: seq<Queue>, processed: set<Path>, limited: set<Path>, log: seq<Entry>, rules: Rules, e: Entry)
    requires InPlace(queues, processed, limited, log, rules)
    requires Exempt(rules, e.path) || e.path in processed
    ensures InPlace(queues, processed, limited, log + [e], rules)
  {
    BestNext(log, e);
    forall p ensures PlacedAt(queues, processed, limited, log + [e], rules, p) {
      assert PlacedAt(queues, processed, limited, log, rules, p);
    }
  }

  lemma TooDeepInPlace(queues: seq<Queue>, processed: set<Path>, limited: set<Path>, log: seq<Entry>, rules: Rules, e: Entry)
    requires InPlace(queues, processed, limited, log, rules)
    requires !Exempt(rules, e.path) && e.path !in processed && RelaxedDepth(queues, e.path, e.depth) > rules.maximumDepth
    ensures InPlace(queues, processed, limited + {e.path}, log + [e], rules)
  {
    BestNext(log, e);
    forall p ensures PlacedAt(queues, processed, limited + {e.path}, log + [e], rules, p) {
      assert PlacedAt(queues, processed, limited, log, rules, p);
    }
  }

  lemma MovedPlaced(queues: seq<Queue>, processed: set<Path>, limited: set<Path>, log: seq<Entry>, rules: Rules, e: Entry,
                    rank: nat, p: Path)
    requires |queues| == 3 && (forall i :: 0 <= i < 3 ==> queues[i].Ok() == true) && rank < 3
    requires PlacedAt(queues, processed, limited, log, rules, p)
    requires e.path == p ==> SpotOf(log + [e], processed, rules, p) == Queued(rank, RelaxedDepth(queues, p, e.depth))
    requires e.path != p ==> SpotOf(log + [e], processed, rules, p) == SpotOf(log, processed, rules, p)
    ensures PlacedAt(Moved(queues, e.path, rank, RelaxedDepth(queues, e.path, e.depth)), processed, limited - {e.path},
                     log + [e], rules, p)
  {
    MovedSpot(queues, processed, limited, e.path, rank, RelaxedDepth(queues, e.path, e.depth), p,
              SpotOf(log, processed, rules, p), SpotOf(log + [e], processed, rules, p));
  }

  lemma MovedSpot(queues: seq<Queue>, processed: set<Path>, limited: set<Path>, q: Path, rank: nat, depth: int, p: Path,
                  before: Spot, after: Spot)
    requires |queues| == 3 && (forall i :: 0 <= i < 3 ==> queues[i].Ok() == true) && rank < 3
    requires IsAt(queues, processed, limited, p, before) && after == if q == p then Queued(rank, depth) else before
    requires q == p ==> before != Done
    ensures IsAt(Moved(queues, q, rank, depth), processed, limited - {q}, p, after)
  {
    MovedAt(queues, q, rank, depth, p, 0);
    MovedAt(queues, q, rank, depth, p, 1);
    MovedAt(queues, q, rank, depth, p, 2);
  }

  lemma MovedInPlace(queues: seq<Queue>, processed: set<Path>, limited: set<Path>, log: seq<Entry>, rules: Rules, e: Entry)
    requires InPlace(queues, processed, limited, log, rules)
    requires !Exempt(rules, e.path) && e.path !in processed && RelaxedDepth(queues, e.path, e.depth) <= rules.maximumDepth
    ensures BestOf(log + [e], e.path).Some? && BestOf(log + [e], e.path).value.rank < 3
    ensures InPlace(Moved(queues, e.path, BestOf(log + [e], e.path).value.rank, RelaxedDepth(queues, e.path, e.depth)),
                    processed, limited - {e.path}, log + [e], rules)
  {
    BestNext(log, e);
    BestIsLeast(log + [e], e.path);
    var rank := BestOf(log + [e], e.path).value.rank;
    var moved := Moved(queues, e.path, rank, RelaxedDepth(queues, e.path, e.depth));
    forall p ensures PlacedAt(moved, processed, limited - {e.path}, log + [e], rules, p) {
      assert PlacedAt(queues, processed, limited, log, rules, p);
      MovedPlaced(queues, processed, limited, log, rules, e, rank, p);
    }
  }

  /** The children that the tables know below a path. */
  ghost predicate Curated(tables: Tables, parent: Path, child: Path, source: Source) {
    if source == Optional then child in tables.optional(parent)
    else source == Catalog
         && (child in tables.catalog(parent)
             || child in tables.rrcFields(if tables.zoneRoot(parent).Some? then tables.zoneRoot(parent).value else parent)
             || (tables.zoneRoot(parent).Some? && (child == PROGRAM_ROOT || child == PROGRAM_LIST)))
  }

  /** The children that a resource advertises: references below the allowed roots, and its identifier list. */
  ghost predicate Advertises(r: Resource, child: Path, roots: seq<Path>) {
    (child in r.references && Under(child, roots)) || (r.listed.Some? && child in r.listed.value)
  }

  ghost predicate Edge(rules: Rules, found: map<Path, Resource>, parent: Path, child: Path, source: Source) {
    || Curated(rules.tables, parent, child, source)
    || (parent in found && source == Reference && Advertises(found[parent], child, rules.AllowedRoots() + [PROGRAM_ROOT]))
    || (parent in found && source == Catalog && found[parent].path == ZONE_LIST && found[parent].listed.Some?
        && (child == PROGRAM_ROOT || child == PROGRAM_LIST))
  }

  /** The gateway is known to be a water softener, from the start or by the model it reports. */
  predicate SoftenerKnown(rules: Rules, found: map<Path, Resource>) {
    rules.softener
    || (MODEL_PATH in found && found[MODEL_PATH].text.Some? && rules.tables.isSoftenerModel(found[MODEL_PATH].text.value))
  }

  lemma SoftenerExactly(rules: Rules, found: map<Path, Resource>)
    ensures SoftenerKnown(rules, found) <==>
              rules.softener || exists p, text :: p in found && p.text == "/system/appliance/model" && found[p].text == Some(text)
                                                  && rules.tables.isSoftenerModel(text)
  {
    if p, text :| p in found && p.text == "/system/appliance/model" && found[p].text == Some(text) && rules.tables.isSoftenerModel(text) {
      assert p == MODEL_PATH;
    }
  }

  /** A place below which children may be scheduled: a path at a reported depth, or the site of a known softener. */
  ghost predicate Site(log: seq<Entry>, p: Path, depth: int, rules: Rules, found: map<Path, Resource>) {
    Logged(log, p, depth) || (p == SOFTENER_SITE && depth == 1 && SoftenerKnown(rules, found))
  }

  ghost predicate IsStart(e: Entry, rules: Rules, found: map<Path, Resource>) {
    e.depth == 0 && e.parent.None?
    && ((e.source == Root && e.path in rules.StartRoots())
        || (e.source == Catalog && e.path == SOFTENER_ROOT && SoftenerKnown(rules, found)))
  }

  /** A call is a root call, or follows an edge from a site reported before, one level higher. */
  ghost predicate Justified(before: seq<Entry>, e: Entry, rules: Rules, found: map<Path, Resource>) {
    IsStart(e, rules, found)
    || (e.parent.Some? && Site(before, e.parent.value, e.depth - 1, rules, found) && Edge(rules, found, e.parent.value, e.path, e.source))
  }

  ghost predicate AllJustified(log: seq<Entry>, rules: Rules, found: map<Path, Resource>) {
    forall k :: 0 <= k < |log| ==> JustifiedAt(log, k, rules, found)
  }

  ghost predicate JustifiedAt(log: seq<Entry>, k: int, rules: Rules, found: map<Path, Resource>)
    requires 0 <= k < |log|
  {
    Justified(log[..k], log[k], rules, found)
  }

  lemma JustifiedNext(log: seq<Entry>, e: Entry, rules: Rules, found: map<Path, Resource>)
    requires AllJustified(log, rules, found) && Justified(log, e, rules, found)
    ensures AllJustified(log + [e], rules, found)
  {
    var longer := log + [e];
    forall k | 0 <= k < |longer| ensures JustifiedAt(longer, k, rules, found) {
      if k < |log| {
        assert longer[..k] == log[..k];
        assert JustifiedAt(log, k, rules, found);
      } else {
        assert longer[..k] == log;
      }
    }
  }

  lemma JustifiedMore(log: seq<Entry>, rules: Rules, found: map<Path, Resource>, p: Path, r: Resource)
    requires AllJustified(log, rules, found) && p !in found
    ensures AllJustified(log, rules, found[p := r])
  {
    var more := found[p := r];
    forall k | 0 <= k < |log| ensures JustifiedAt(log, k, rules, more) {
      assert JustifiedAt(log, k, rules, found);
    }
  }

  lemma SiteStays(log: seq<Entry>, longer: seq<Entry>, p: Path, depth: int, rules: Rules, found: map<Path, Resource>)
    requires Site(log, p, depth, rules, found) && log <= longer
    ensures Site(longer, p, depth, rules, found)
  {
    if Logged(log, p, depth) {
      var k :| 0 <= k < |log| && log[k].path == p && log[k].depth == depth;
      assert longer[k] == log[k];
    }
  }

  lemma UnderMore(p: Path, roots: seq<Path>, more: seq<Path>)
    requires Under(p, roots)
    ensures Under(p, roots + more)
  {
    var i :| 0 <= i < |roots| && (p == roots[i] || roots[i].text + "/" <= p.text);
    assert (roots + more)[i] == roots[i];
  }

  lemma AllowedWhenever(rules: Rules, p: Path, rrcEnabled: bool)
    ensures Under(p, rules.AllowedRoots()) ==> Under(p, rules.AllowedRoots() + if rrcEnabled then [PROGRAM_ROOT] else [])
    ensures Under(p, rules.AllowedRoots() + if rrcEnabled then [PROGRAM_ROOT] else []) ==>
              Under(p, rules.AllowedRoots() + [PROGRAM_ROOT])
  {
    if Under(p, rules.AllowedRoots()) {
      UnderMore(p, rules.AllowedRoots(), [PROGRAM_ROOT]);
    }
    assert rules.AllowedRoots() + [] == rules.AllowedRoots();
  }

  lemma CallsNext(children: seq<Path>, i: nat, depth: int, source: Source, parent: Option<Path>)
    requires i < |children|
    ensures Calls(children[..i + 1], depth, source, parent) ==
              Calls(children[..i], depth, source, parent) + [Entry(children[i], depth, source, parent)]
  {
  }

  /** The calls that schedule a list of children below one parent. */
  ghost function Calls(children: seq<Path>, depth: int, source: Source, parent: Option<Path>): (r: seq<Entry>)
    ensures |r| == |children|
  {
    seq(|children|, i requires 0 <= i < |children| => Entry(children[i], depth, source, parent))
  }

  /** The worklist: what scheduling a path changes, and the paths already requested. */
  datatype Worklist = Worklist(queues: seq<Queue>, processed: set<Path>, limited: set<Path>, limitReached: bool,
                               sources: map<Path, Source>, omittedLicense: bool, handedOver: set<Path>)

  predicate AllEmpty(w: Worklist)
    requires |w.queues| == 3
  {
    w.queues[0].order == [] && w.queues[1].order == [] && w.queues[2].order == []
  }

  /** What one report leads to: the calls it makes, and whether the program resources are enabled afterwards. */
  datatype Trail = Trail(calls: seq<Entry>, rrcEnabled: bool)

  /** The calls below one site: catalog children, then optional probes. */
  ghost function ChildTrail(tables: Tables, p: Path, depth: int, rrcEnabled: bool, softener: bool): Trail {
    Trail(Calls(CatalogChildren(tables, p, rrcEnabled), depth + 1, Catalog, Some(p))
          + Calls(Probes(tables, p, softener), depth + 1, Optional, Some(p)),
          rrcEnabled || tables.zoneRoot(p).Some?)
  }

  /** Advertised children: each allowed one is reported, then expanded. */
  ghost function FollowTrail(rules: Rules, children: seq<Path>, depth: int, parent: Path, restricted: bool, rrcEnabled: bool,
                             softener: bool): Trail
  {
    if children == [] then Trail([], rrcEnabled)
    else
      var child := children[|children| - 1];
      var earlier := FollowTrail(rules, children[..|children| - 1], depth, parent, restricted, rrcEnabled, softener);
      if restricted && !Under(child, Allowed(rules, earlier.rrcEnabled)) then earlier
      else
        var below := ChildTrail(rules.tables, child, depth, earlier.rrcEnabled, softener);
        Trail(earlier.calls + ([Entry(child, depth, Reference, Some(parent))] + below.calls), below.rrcEnabled)
  }

  /** The identifier list of a resource: a zone list enables the program resources. */
  ghost function ListTrail(rules: Rules, r: Resource, p: Path, depth: int, rrcEnabled: bool, softener: bool): Trail {
    var enables := r.path == ZONE_LIST && r.listed.Some? && !rrcEnabled;
    var first := if enables then Calls([PROGRAM_ROOT, PROGRAM_LIST], depth + 1, Catalog, Some(p)) else [];
    if (r.path == ZONE_LIST || rrcEnabled) && r.listed.Some? then
      var followed := FollowTrail(rules, r.listed.value, depth + 1, p, false, rrcEnabled || enables, softener);
      Trail(first + followed.calls, followed.rrcEnabled)
    else Trail(first, rrcEnabled || enables)
  }

  /** Newly noticed model evidence adds the softener circuit. */
  ghost function SoftenerTrail(tables: Tables, noticed: bool, rrcEnabled: bool): Trail {
    if noticed then
      var below := ChildTrail(tables, SOFTENER_SITE, 1, rrcEnabled, true);
      Trail([Entry(SOFTENER_ROOT, 0, Catalog, None)] + below.calls, below.rrcEnabled)
    else Trail([], rrcEnabled)
  }

  /** The curated children of a discovered path, then its references. */
  ghost function BelowTrail(rules: Rules, r: Resource, p: Path, depth: int, rrcEnabled: bool, softener: bool): Trail {
    var children := ChildTrail(rules.tables, p, depth, rrcEnabled, softener);
    var references := FollowTrail(rules, r.references, depth + 1, p, true, children.rrcEnabled, softener);
    Trail(children.calls + references.calls, references.rrcEnabled)
  }

  /** Everything that one discovered resource leads to, in order. */
  ghost function ExpandTrail(rules: Rules, r: Resource, p: Path, depth: int, rrcEnabled: bool, before: bool, softener: bool): Trail {
    var lists := ListTrail(rules, r, p, depth, rrcEnabled, before);
    var noticed := SoftenerTrail(rules.tables, softener && !before, lists.rrcEnabled);
    var below := BelowTrail(rules, r, p, depth, noticed.rrcEnabled, softener);
    Trail(lists.calls + noticed.calls + below.calls, below.rrcEnabled)
  }

  // Following reports every allowed child.
  lemma {:induction false} FollowReports(rules: Rules, children: seq<Path>, depth: int, parent: Path, restricted: bool,
                                         rrcEnabled: bool, softener: bool, i: nat)
    requires i < |children| && (!restricted || Under(children[i], rules.AllowedRoots()))
    ensures Logged(FollowTrail(rules, children, depth, parent, restricted, rrcEnabled, softener).calls, children[i], depth)
  {
    var front := children[..|children| - 1];
    var earlier := FollowTrail(rules, front, depth, parent, restricted, rrcEnabled, softener);
    var trail := FollowTrail(rules, children, depth, parent, restricted, rrcEnabled, softener);
    if i < |front| {
      FollowReports(rules, front, depth, parent, restricted, rrcEnabled, softener, i);
      LoggedStays(earlier.calls, trail.calls, children[i], depth);
    } else {
      AllowedWhenever(rules, children[i], earlier.rrcEnabled);
      assert trail.calls[|earlier.calls|] == Entry(children[i], depth, Reference, Some(parent));
    }
  }

  // Expanding a resource reports each of its steady children, one level below it.
  lemma ExpandFollows(rules: Rules, r: Resource, p: Path, depth: int, rrcEnabled: bool, before: bool, softener: bool)
    ensures Followed(r, p, depth, ExpandTrail(rules, r, p, depth, rrcEnabled, before, softener).calls, rules)
  {
    var lists := ListTrail(rules, r, p, depth, rrcEnabled, before);
    var noticed := SoftenerTrail(rules.tables, softener && !before, lists.rrcEnabled);
    var below := BelowTrail(rules, r, p, depth, noticed.rrcEnabled, softener);
    forall c | Steady(rules, r, p, c) ensures Logged(lists.calls + noticed.calls + below.calls, c, depth + 1) {
      if r.path == ZONE_LIST && r.listed.Some? && c in r.listed.value {
        ZoneReported(rules, r, p, depth, rrcEnabled, before, c);
        LoggedWithin([], lists.calls, noticed.calls + below.calls, c, depth + 1);
        SameCalls(lists.calls, noticed.calls, below.calls);
      } else {
        BelowReports(rules, r, p, depth, noticed.rrcEnabled, softener, c);
        LoggedWithin(lists.calls + noticed.calls, below.calls, [], c, depth + 1);
        assert lists.calls + noticed.calls + below.calls + [] == lists.calls + noticed.calls + below.calls;
      }
    }
  }

  lemma SameCalls(a: seq<Entry>, b: seq<Entry>, c: seq<Entry>)
    ensures [] + a + (b + c) == a + b + c
  {
  }

  lemma ZoneReported(rules: Rules, r: Resource, p: Path, depth: int, rrcEnabled: bool, before: bool, c: Path)
    requires r.path == ZONE_LIST && r.listed.Some? && c in r.listed.value
    ensures Logged(ListTrail(rules, r, p, depth, rrcEnabled, before).calls, c, depth + 1)
  {
    var first := if rrcEnabled then [] else Calls([PROGRAM_ROOT, PROGRAM_LIST], depth + 1, Catalog, Some(p));
    var followed := FollowTrail(rules, r.listed.value, depth + 1, p, false, true, before).calls;
    var i :| 0 <= i < |r.listed.value| && r.listed.value[i] == c;
    FollowReports(rules, r.listed.value, depth + 1, p, false, true, before, i);
    LoggedWithin(first, followed, [], c, depth + 1);
    assert first + followed + [] == first + followed;
  }

  lemma BelowReports(rules: Rules, r: Resource, p: Path, depth: int, rrcEnabled: bool, softener: bool, c: Path)
    requires Steady(rules, r, p, c) && !(r.path == ZONE_LIST && r.listed.Some? && c in r.listed.value)
    ensures Logged(BelowTrail(rules, r, p, depth, rrcEnabled, softener).calls, c, depth + 1)
  {
    var children := ChildTrail(rules.tables, p, depth, rrcEnabled, softener);
    var references := FollowTrail(rules, r.references, depth + 1, p, true, children.rrcEnabled, softener);
    if c in r.references && Under(c, rules.AllowedRoots()) {
      var i :| 0 <= i < |r.references| && r.references[i] == c;
      FollowReports(rules, r.references, depth + 1, p, true, children.rrcEnabled, softener, i);
      LoggedWithin(children.calls, references.calls, [], c, depth + 1);
      assert children.calls + references.calls + [] == children.calls + references.calls;
    } else {
      ChildReported(rules.tables, p, depth, rrcEnabled, softener, c);
      LoggedWithin([], children.calls, references.calls, c, depth + 1);
      assert [] + children.calls + references.calls == children.calls + references.calls;
    }
  }

  lemma ChildReported(tables: Tables, p: Path, depth: int, rrcEnabled: bool, softener: bool, c: Path)
    requires c in tables.catalog(p) || IsSteadyProbe(tables, p, c)
    ensures Logged(ChildTrail(tables, p, depth, rrcEnabled, softener).calls, c, depth + 1)
  {
    var catalog, probes := CatalogChildren(tables, p, rrcEnabled), Probes(tables, p, softener);
    var first, second := Calls(catalog, depth + 1, Catalog, Some(p)), Calls(probes, depth + 1, Optional, Some(p));
    if c in tables.catalog(p) {
      CallLogged(catalog, depth + 1, Catalog, Some(p), c);
      LoggedWithin([], first, second, c, depth + 1);
      assert [] + first + second == first + second;
    } else {
      CallLogged(probes, depth + 1, Optional, Some(p), c);
      LoggedWithin(first, second, [], c, depth + 1);
      assert first + second + [] == first + second;
    }
  }

  lemma CallLogged(children: seq<Path>, depth: int, source: Source, parent: Option<Path>, c: Path)
    requires c in children
    ensures Logged(Calls(children, depth, source, parent), c, depth)
  {
    var i :| 0 <= i < |children| && children[i] == c;
    assert Calls(children, depth, source, parent)[i] == Entry(c, depth, source, parent);
  }

  lemma LoggedWithin(before: seq<Entry>, middle: seq<Entry>, after: seq<Entry>, p: Path, depth: int)
    requires Logged(middle, p, depth)
    ensures Logged(before + middle + after, p, depth)
  {
    var k :| 0 <= k < |middle| && middle[k].path == p && middle[k].depth == depth;
    assert (before + middle + after)[|before| + k] == middle[k];
  }

  lemma LoggedStays(log: seq<Entry>, longer: seq<Entry>, p: Path, depth: int)
    requires Logged(log, p, depth) && log <= longer
    ensures Logged(longer, p, depth)
  {
    var k :| 0 <= k < |log| && log[k].path == p && log[k].depth == depth;
    assert longer[k] == log[k];
  }

  function Allowed(rules: Rules, rrcEnabled: bool): seq<Path> {
    rules.AllowedRoots() + if rrcEnabled then [PROGRAM_ROOT] else []
  }

  /** What scheduling keeps true. */
  ghost predicate Scheduling(w: Worklist, log: seq<Entry>, rules: Rules, found: map<Path, Resource>) {
    && InPlace(w.queues, w.processed, w.limited, log, rules)
    && (w.limitReached <==> w.limited != {})
    && SourcesBest(w.sources, log)
    && AllJustified(log, rules, found)
    && HandsOver(w.omittedLicense, w.handedOver, log, rules)
  }

  /** The licence was omitted if it was reported; during recovery, exactly the reported start-up paths were handed over. */
  ghost predicate HandsOver(omitted: bool, handed: set<Path>, log: seq<Entry>, rules: Rules) {
    (omitted <==> Reported(log, StartupData.LICENSE_PATH)) && forall p :: HandedOver(handed, log, rules, p)
  }

  ghost predicate HandedOver(handed: set<Path>, log: seq<Entry>, rules: Rules, p: Path) {
    p in handed <==> Reported(log, p) && p != StartupData.LICENSE_PATH && rules.recovering && rules.tables.isStartup(p)
  }

  lemma HandsOverNext(w: Worklist, log: seq<Entry>, rules: Rules, e: Entry, next: Worklist)
    requires HandsOver(w.omittedLicense, w.handedOver, log, rules)
    requires next.omittedLicense == (w.omittedLicense || e.path == StartupData.LICENSE_PATH)
    requires next.handedOver == w.handedOver
               + if e.path != StartupData.LICENSE_PATH && Exempt(rules, e.path) then {e.path} else {}
    ensures HandsOver(next.omittedLicense, next.handedOver, log + [e], rules)
  {
    var longer := log + [e];
    assert longer[|log|] == e;
    forall p ensures Reported(longer, p) <==> Reported(log, p) || p == e.path {
      if k :| 0 <= k < |log| && log[k].path == p {
        assert longer[k] == log[k];
      }
    }
    forall p ensures HandedOver(next.handedOver, longer, rules, p) {
      assert HandedOver(w.handedOver, log, rules, p);
    }
  }

  /** A path was scheduled by some call. */
  ghost predicate Reported(log: seq<Entry>, p: Path) {
    exists k :: 0 <= k < |log| && log[k].path == p
  }

  lemma ReportedStays(log: seq<Entry>, longer: seq<Entry>, p: Path)
    requires Reported(log, p) && log <= longer
    ensures Reported(longer, p)
  {
    var k :| 0 <= k < |log| && log[k].path == p;
    assert longer[k] == log[k];
  }

  /** The optional probes below a path; a known water softener needs few of them. */
  function Probes(tables: Tables, p: Path, softener: bool): (r: seq<Path>)
    ensures forall c :: c in r ==> c in tables.optional(p)
  {
    if softener && p == SYSTEM_PATH then Kept(tables.optional(p)) else tables.optional(p)
  }

  // A known water softener is only probed for its model and firmware; otherwise every optional child is.
  lemma ProbesExactly(tables: Tables, p: Path, softener: bool, c: Path)
    ensures c in Probes(tables, p, softener) <==>
              c in tables.optional(p) && (softener && p.text == "/system" ==>
                                            c.text == "/system/appliance/model" || c.text == "/system/appliance/versionFirmware")
  {
    assert SOFTENER_SYSTEM_PROBES[0].text == "/system/appliance/model" && SOFTENER_SYSTEM_PROBES[1].text == "/system/appliance/versionFirmware";
    assert c.text == SOFTENER_SYSTEM_PROBES[0].text <==> c == SOFTENER_SYSTEM_PROBES[0];
    assert c.text == SOFTENER_SYSTEM_PROBES[1].text <==> c == SOFTENER_SYSTEM_PROBES[1];
    assert p.text == "/system" <==> p == SYSTEM_PATH;
  }

  function Kept(probes: seq<Path>): (r: seq<Path>)
    ensures forall c :: c in r <==> c in probes && c in SOFTENER_SYSTEM_PROBES
  {
    if probes == [] then []
    else if probes[0] in SOFTENER_SYSTEM_PROBES then [probes[0]] + Kept(probes[1..]) else Kept(probes[1..])
  }

  /** The catalog below one site: the program roots once, then the zone fields, then the fixed children. */
  function CatalogChildren(tables: Tables, p: Path, rrcEnabled: bool): (r: seq<Path>)
    ensures forall c :: c in r ==> Curated(tables, p, c, Catalog)
  {
    var zone := tables.zoneRoot(p);
    (if zone.Some? && !rrcEnabled then [PROGRAM_ROOT, PROGRAM_LIST] else [])
    + (if zone.Some? then tables.rrcFields(zone.value) else if rrcEnabled then tables.rrcFields(p) else [])
    + tables.catalog(p)
  }

  // Below a zone its program fields, and the program roots unless they are enabled; elsewhere fields only once they are.
  lemma CatalogExactly(tables: Tables, p: Path, rrcEnabled: bool, c: Path)
    ensures c in CatalogChildren(tables, p, rrcEnabled) <==>
              || c in tables.catalog(p)
              || (tables.zoneRoot(p).Some? && (c in tables.rrcFields(tables.zoneRoot(p).value) ||
                    (!rrcEnabled && (c.text == "/programs" || c.text == "/programs/list"))))
              || (tables.zoneRoot(p).None? && rrcEnabled && c in tables.rrcFields(p))
  {
    assert PROGRAM_ROOT.text == "/programs" && PROGRAM_LIST.text == "/programs/list";
    assert c.text == "/programs" <==> c == PROGRAM_ROOT;
    assert c.text == "/programs/list" <==> c == PROGRAM_LIST;
  }

  ghost predicate IsSteadyProbe(tables: Tables, p: Path, c: Path) {
    c in tables.optional(p) && (p != SYSTEM_PATH || c in SOFTENER_SYSTEM_PROBES)
  }

  /** A child that every expansion of a resource reports, whatever was discovered before. */
  ghost predicate Steady(rules: Rules, r: Resource, p: Path, c: Path) {
    || (c in r.references && Under(c, rules.AllowedRoots()))
    || (r.path == ZONE_LIST && r.listed.Some? && c in r.listed.value)
    || c in rules.tables.catalog(p) || IsSteadyProbe(rules.tables, p, c)
  }

  /** The steady children of a discovered resource have been scheduled one level below it. */
  ghost predicate Followed(r: Resource, p: Path, depth: int, log: seq<Entry>, rules: Rules) {
    forall c :: Steady(rules, r, p, c) ==> Logged(log, c, depth + 1)
  }

  ghost predicate AllFollowed(found: map<Path, Resource>, recorded: map<Path, int>, log: seq<Entry>, rules: Rules) {
    forall p {:trigger FollowedAt(found, recorded, p, log, rules)} :: p in found ==> FollowedAt(found, recorded, p, log, rules)
  }

  ghost predicate FollowedAt(found: map<Path, Resource>, recorded: map<Path, int>, p: Path, log: seq<Entry>, rules: Rules)
    requires p in found
  {
    p in recorded && Followed(found[p], p, recorded[p], log, rules)
  }

  lemma FollowedStays(r: Resource, p: Path, depth: int, log: seq<Entry>, longer: seq<Entry>, rules: Rules)
    requires Followed(r, p, depth, log, rules) && log <= longer
    ensures Followed(r, p, depth, longer, rules)
  {
    forall c | Steady(rules, r, p, c) ensures Logged(longer, c, depth + 1) {
      LoggedStays(log, longer, c, depth + 1);
    }
  }

  lemma AllFollowedStays(found: map<Path, Resource>, recorded: map<Path, int>, log: seq<Entry>, longer: seq<Entry>, rules: Rules)
    requires AllFollowed(found, recorded, log, rules) && log <= longer
    ensures AllFollowed(found, recorded, longer, rules)
  {
    forall p | p in found ensures FollowedAt(found, recorded, p, longer, rules) {
      assert FollowedAt(found, recorded, p, log, rules);
      FollowedStays(found[p], p, recorded[p], log, longer, rules);
    }
  }

  // Recording the depths of further paths changes nothing for those found already.
  lemma AllFollowedMore(found: map<Path, Resource>, recorded: map<Path, int>, depths: map<Path, int>, log: seq<Entry>, rules: Rules)
    requires AllFollowed(found, recorded, log, rules) && found.Keys !! depths.Keys
    ensures AllFollowed(found, recorded + depths, log, rules)
  {
    forall p | p in found ensures FollowedAt(found, recorded + depths, p, log, rules) {
      assert FollowedAt(found, recorded, p, log, rules) && p !in depths;
    }
  }

  /** Everything requested by a series of bulk requests. */
  ghost function RequestedIn(requests: seq<seq<Path>>): set<Path> {
    if requests == [] then {} else RequestedIn(requests[..|requests| - 1]) + Elements(requests[|requests| - 1])
  }

  /** No request is empty or too long, and none repeats a path of its own or of an earlier one. */
  ghost predicate OnceOnly(requests: seq<seq<Path>>) {
    requests == []
    || (var earlier, last := requests[..|requests| - 1], requests[|requests| - 1];
        OnceOnly(earlier) && 1 <= |last| <= MAX_BULK_PATHS && NoRepeats(last) && RequestedIn(earlier) !! Elements(last))
  }

  // No path enters two bulk requests.
  lemma {:induction false} NoPathTwice(requests: seq<seq<Path>>, i: nat, j: nat, p: Path)
    requires OnceOnly(requests) && i < j < |requests| && p in requests[i]
    ensures p !in requests[j]
  {
    var earlier := requests[..|requests| - 1];
    if j < |earlier| {
      assert earlier[i] == requests[i] && earlier[j] == requests[j];
      NoPathTwice(earlier, i, j, p);
    } else {
      assert earlier[i] == requests[i];
      RequestedAt(earlier, i, p);
      assert p !in Elements(requests[j]);
    }
  }

  lemma {:induction false} RequestedAt(requests: seq<seq<Path>>, i: nat, p: Path)
    requires i < |requests| && p in requests[i]
    ensures p in RequestedIn(requests)
  {
    if i < |requests| - 1 {
      assert requests[..|requests| - 1][i] == requests[i];
      RequestedAt(requests[..|requests| - 1], i, p);
    }
  }

  /** The depth at which each requested path was taken from its queue: the least one reported until then, within the bound. */
  ghost predicate RecordedOk(recorded: map<Path, int>, log: seq<Entry>, maximumDepth: int) {
    forall p {:trigger RecordedAt(recorded, log, maximumDepth, p)} :: p in recorded ==> RecordedAt(recorded, log, maximumDepth, p)
  }

  ghost predicate RecordedAt(recorded: map<Path, int>, log: seq<Entry>, maximumDepth: int, p: Path)
    requires p in recorded
  {
    recorded[p] <= maximumDepth && Logged(log, p, recorded[p]) && exists n :: LeastUntil(log, p, recorded[p], n)
  }

  /** Of the first `n` reports, none was at a smaller depth. */
  ghost predicate LeastUntil(log: seq<Entry>, p: Path, depth: int, n: int) {
    0 <= n <= |log| && Logged(log[..n], p, depth) && forall k :: 0 <= k < n && log[k].path == p ==> depth <= log[k].depth
  }

  lemma LeastUntilStays(log: seq<Entry>, longer: seq<Entry>, p: Path, depth: int, n: int)
    requires LeastUntil(log, p, depth, n) && log <= longer
    ensures LeastUntil(longer, p, depth, n)
  {
    assert longer[..n] == log[..n];
    forall k | 0 <= k < n && longer[k].path == p ensures depth <= longer[k].depth {
      assert longer[k] == log[k];
    }
  }

  lemma RecordedStays(recorded: map<Path, int>, log: seq<Entry>, longer: seq<Entry>, maximumDepth: int)
    requires RecordedOk(recorded, log, maximumDepth) && log <= longer
    ensures RecordedOk(recorded, longer, maximumDepth)
  {
    forall p | p in recorded ensures RecordedAt(recorded, longer, maximumDepth, p) {
      assert RecordedAt(recorded, log, maximumDepth, p);
      LoggedStays(log, longer, p, recorded[p]);
      var n :| LeastUntil(log, p, recorded[p], n);
      LeastUntilStays(log, longer, p, recorded[p], n);
    }
  }

  /** The bulk requests sent, and the depth recorded for each requested path. */
  datatype Sent = Sent(requests: seq<seq<Path>>, recorded: map<Path, int>)

  /** What holds of the requests of a run. */
  ghost predicate Requesting(sent: Sent, processed: set<Path>, found: map<Path, Resource>, log: seq<Entry>, rules: Rules) {
    && OnceOnly(sent.requests) && RequestedIn(sent.requests) == processed == sent.recorded.Keys
    && RecordedOk(sent.recorded, log, rules.maximumDepth)
    && found.Keys <= processed && AllFollowed(found, sent.recorded, log, rules)
  }

  // Taking the head of a queue moves exactly these paths to the processed ones.
  lemma TakenInPlace(queues: seq<Queue>, processed: set<Path>, limited: set<Path>, log: seq<Entry>, rules: Rules,
                     rank: nat, taken: set<Path>)
    requires InPlace(queues, processed, limited, log, rules) && rank < 3
    requires forall p :: p in taken ==> p in queues[rank].depths
    ensures InPlace(queues[rank := queues[rank].Drop(taken)], processed + taken, limited, log, rules)
  {
    var fewer := queues[rank := queues[rank].Drop(taken)];
    forall p ensures PlacedAt(fewer, processed + taken, limited, log, rules, p) {
      assert PlacedAt(queues, processed, limited, log, rules, p);
    }
  }

  // A queued path was reported at the depth with which it is queued, and was not requested yet.
  lemma QueuedIsLogged(queues: seq<Queue>, processed: set<Path>, limited: set<Path>, log: seq<Entry>, rules: Rules,
                       rank: nat, p: Path)
    requires InPlace(queues, processed, limited, log, rules) && rank < 3 && p in queues[rank].depths
    ensures p !in processed && queues[rank].depths[p] <= rules.maximumDepth && Logged(log, p, queues[rank].depths[p])
    ensures LeastUntil(log, p, queues[rank].depths[p], |log|)
  {
    assert PlacedAt(queues, processed, limited, log, rules, p);
    BestIsLeast(log, p);
    assert log[..|log|] == log;
  }

  /** The worklist after the frontier `taken` left its queue. */
  function Taken(w: Worklist, rank: nat, taken: seq<Path>): (after: Worklist)
    requires rank < |w.queues| && w.queues[rank].Ok()
    ensures after.processed == w.processed + Elements(taken)
  {
    w.(queues := w.queues[rank := w.queues[rank].Drop(Elements(taken))], processed := w.processed + Elements(taken))
  }

  lemma TakenIsScheduled(w: Worklist, log: seq<Entry>, rules: Rules, found: map<Path, Resource>, rank: nat, taken: seq<Path>)
    requires Scheduling(w, log, rules, found) && rank < 3 && AllIn(taken, w.queues[rank])
    ensures Scheduling(Taken(w, rank, taken), log, rules, found)
  {
    TakenInPlace(w.queues, w.processed, w.limited, log, rules, rank, Elements(taken));
  }

  lemma TakenIsRecorded(w: Worklist, log: seq<Entry>, rules: Rules, sent: Sent, rank: nat, taken: seq<Path>)
    requires InPlace(w.queues, w.processed, w.limited, log, rules) && rank < 3
    requires RecordedOk(sent.recorded, log, rules.maximumDepth)
    requires AllIn(taken, w.queues[rank])
    ensures RecordedOk(SentNext(sent, w.queues[rank], taken).recorded, log, rules.maximumDepth)
  {
    var depths := DepthsOf(w.queues[rank], taken);
    var more := sent.recorded + depths;
    forall p | p in more ensures RecordedAt(more, log, rules.maximumDepth, p) {
      if p in depths {
        QueuedIsLogged(w.queues, w.processed, w.limited, log, rules, rank, p);
      } else {
        assert RecordedAt(sent.recorded, log, rules.maximumDepth, p);
      }
    }
  }

  lemma TakenIsNew(w: Worklist, log: seq<Entry>, rules: Rules, rank: nat, taken: seq<Path>)
    requires InPlace(w.queues, w.processed, w.limited, log, rules) && rank < 3
    requires NoRepeats(taken) && AllIn(taken, w.queues[rank])
    ensures w.processed !! Elements(taken) && |w.processed + Elements(taken)| == |w.processed| + |taken|
  {
    NoRepeatsCount(taken);
    forall p | p in taken ensures p !in w.processed {
      QueuedIsLogged(w.queues, w.processed, w.limited, log, rules, rank, p);
    }
  }

  lemma TakenIsRequested(w: Worklist, log: seq<Entry>, rules: Rules, sent: Sent, found: map<Path, Resource>,
                         rank: nat, taken: seq<Path>)
    requires InPlace(w.queues, w.processed, w.limited, log, rules) && rank < 3
    requires Requesting(sent, w.processed, found, log, rules)
    requires NoRepeats(taken) && 1 <= |taken| <= MAX_BULK_PATHS && AllIn(taken, w.queues[rank])
    ensures Requesting(SentNext(sent, w.queues[rank], taken), Taken(w, rank, taken).processed, found, log, rules)
  {
    TakenIsNew(w, log, rules, rank, taken);
    TakenIsRecorded(w, log, rules, sent, rank, taken);
    TakenKeys(w.queues[rank], taken, sent.recorded);
    TakenOnce(sent.requests, taken);
    NothingFound(found, w.processed, taken, w.queues[rank]);
    AllFollowedMore(found, sent.recorded, DepthsOf(w.queues[rank], taken), log, rules);
  }

  lemma NothingFound(found: map<Path, Resource>, processed: set<Path>, taken: seq<Path>, queue: Queue)
    requires found.Keys <= processed && processed !! Elements(taken)
    ensures found.Keys !! DepthsOf(queue, taken).Keys
  {
    forall p | p in DepthsOf(queue, taken) ensures p !in found {
      assert p in Elements(taken);
    }
  }

  lemma TakenKeys(queue: Queue, taken: seq<Path>, recorded: map<Path, int>)
    requires AllIn(taken, queue)
    ensures (recorded + DepthsOf(queue, taken)).Keys == recorded.Keys + Elements(taken)
  {
  }

  lemma TakenOnce(requests: seq<seq<Path>>, taken: seq<Path>)
    requires OnceOnly(requests) && NoRepeats(taken) && 1 <= |taken| <= MAX_BULK_PATHS && RequestedIn(requests) !! Elements(taken)
    ensures OnceOnly(requests + [taken]) && RequestedIn(requests + [taken]) == RequestedIn(requests) + Elements(taken)
  {
    assert (requests + [taken])[..|requests|] == requests;
  }

  // What is requested next was not discovered before, and has the depth at which it was queued.
  lemma TakenIsReady(w: Worklist, sent: Sent, found: map<Path, Resource>, rank: nat, taken: seq<Path>)
    requires rank < |w.queues| && w.queues[rank].Ok() && found.Keys <= w.processed && w.processed !! Elements(taken)
    requires AllIn(taken, w.queues[rank])
    ensures TakenWith(taken, DepthsOf(w.queues[rank], taken), SentNext(sent, w.queues[rank], taken).recorded,
                      Taken(w, rank, taken).processed, found)
  {
  }

  lemma TakeStarts(w: Worklist, log: seq<Entry>, rules: Rules, sent: Sent, found: map<Path, Resource>, rank: nat, taken: seq<Path>,
                   next: Worklist, nextSent: Sent, depths: map<Path, int>)
    requires Scheduling(w, log, rules, found) == true && found.Keys <= w.processed && rank < 3
    requires NoRepeats(taken) == true && AllIn(taken, w.queues[rank]) == true
    requires next == Taken(w, rank, taken) && nextSent == SentNext(sent, w.queues[rank], taken)
    requires depths == DepthsOf(w.queues[rank], taken)
    ensures |next.processed| == |w.processed| + |taken|
    ensures TakenWith(taken, depths, nextSent.recorded, next.processed, found) == true
  {
    TakenIsNew(w, log, rules, rank, taken);
    TakenIsReady(w, sent, found, rank, taken);
  }

  lemma FoundIsProcessed(sent: Sent, processed: set<Path>, found: map<Path, Resource>, log: seq<Entry>, rules: Rules)
    requires Requesting(sent, processed, found, log, rules) == true
    ensures found.Keys <= processed
  {
  }

  // The frontier taken from its queue is the next request, still to be answered.
  lemma TakeAsks(w: Worklist, log: seq<Entry>, rules: Rules, sent: Sent, found: map<Path, Resource>, wire: seq<Exchange>,
                 rank: nat, taken: seq<Path>, next: Worklist, nextSent: Sent)
    requires Scheduling(w, log, rules, found) == true && rank < 3
    requires Answered(wire, sent.requests, found) == true && Takes(w, sent, rank, taken, next, nextSent) == true
    ensures Asks(wire, nextSent.requests, taken, found) == true
    ensures nextSent.requests == sent.requests + [taken]
  {
    AsksNext(wire, sent.requests, taken, found);
  }

  lemma TakeKeeps(w: Worklist, log: seq<Entry>, rules: Rules, sent: Sent, found: map<Path, Resource>, rank: nat, taken: seq<Path>,
                  next: Worklist, nextSent: Sent)
    requires Scheduling(w, log, rules, found) == true && Requesting(sent, w.processed, found, log, rules) == true && rank < 3
    requires NoRepeats(taken) == true && 1 <= |taken| <= MAX_BULK_PATHS && AllIn(taken, w.queues[rank]) == true
    requires next == Taken(w, rank, taken) && nextSent == SentNext(sent, w.queues[rank], taken)
    ensures Scheduling(next, log, rules, found) == true
    ensures Requesting(nextSent, next.processed, found, log, rules) == true
  {
    TakenIsScheduled(w, log, rules, found, rank, taken);
    TakenIsRequested(w, log, rules, sent, found, rank, taken);
  }

  // Everything that taking a frontier keeps and starts.
  lemma TakeStep(w: Worklist, log: seq<Entry>, rules: Rules, sent: Sent, found: map<Path, Resource>, rank: nat, taken: seq<Path>,
                 next: Worklist, nextSent: Sent, depths: map<Path, int>)
    requires Scheduling(w, log, rules, found) == true && Requesting(sent, w.processed, found, log, rules) == true && rank < 3
    requires NoRepeats(taken) == true && 1 <= |taken| <= MAX_BULK_PATHS && AllIn(taken, w.queues[rank]) == true
    requires next == Taken(w, rank, taken) && nextSent == SentNext(sent, w.queues[rank], taken)
    requires depths == DepthsOf(w.queues[rank], taken)
    ensures Scheduling(next, log, rules, found) == true && Requesting(nextSent, next.processed, found, log, rules) == true
    ensures |next.processed| == |w.processed| + |taken| && Takes(w, sent, rank, taken, next, nextSent) == true
    ensures TakenWith(taken, depths, nextSent.recorded, next.processed, found) == true
  {
    TakeKeeps(w, log, rules, sent, found, rank, taken, next, nextSent);
    FoundIsProcessed(sent, w.processed, found, log, rules);
    TakeStarts(w, log, rules, sent, found, rank, taken, next, nextSent, depths);
  }

  /** The frontier left its queue, counts as processed, and is the next request, at the depths at which it was queued. */
  ghost predicate Takes(work: Worklist, sent: Sent, rank: nat, frontier: seq<Path>, nextWork: Worklist, nextSent: Sent)
    requires rank < |work.queues| && work.queues[rank].Ok()
  {
    nextSent == SentNext(sent, work.queues[rank], frontier) && nextWork == Taken(work, rank, frontier)
  }

  ghost function SentNext(sent: Sent, queue: Queue, taken: seq<Path>): Sent {
    Sent(sent.requests + [taken], sent.recorded + DepthsOf(queue, taken))
  }

  /** A frontier just taken: nothing of it was discovered yet. */
  ghost predicate TakenWith(frontier: seq<Path>, depths: map<Path, int>, recorded: map<Path, int>, processed: set<Path>,
                            found: map<Path, Resource>)
  {
    forall p :: p in frontier ==> p in processed && p !in found && p in depths && p in recorded && depths[p] == recorded[p]
  }

  lemma HeadTaken(frontier: seq<Path>, i: nat, depths: map<Path, int>, recorded: map<Path, int>, processed: set<Path>,
                  found: map<Path, Resource>)
    requires i < |frontier| && TakenWith(frontier[i..], depths, recorded, processed, found)
    ensures var p := frontier[i]; p in processed && p !in found && p in depths && p in recorded && depths[p] == recorded[p]
  {
    assert frontier[i..][0] == frontier[i];
  }

  lemma RestTaken(frontier: seq<Path>, i: nat, depths: map<Path, int>, recorded: map<Path, int>, processed: set<Path>,
                  found: map<Path, Resource>, result: Option<Resource>)
    requires i < |frontier| && NoRepeats(frontier) && TakenWith(frontier[i..], depths, recorded, processed, found)
    ensures TakenWith(frontier[i + 1..], depths, recorded, processed,
                      if result.Some? then found[frontier[i] := result.value] else found) == true
  {
    forall p | p in frontier[i + 1..] ensures p in frontier[i..] && p != frontier[i] {
      var k :| 0 <= k < |frontier[i + 1..]| && frontier[i + 1..][k] == p;
      assert frontier[i..][k + 1] == p && frontier[i + 1 + k] == p;
    }
  }

  lemma RecordedIsSite(sent: Sent, processed: set<Path>, found: map<Path, Resource>, log: seq<Entry>, rules: Rules, p: Path)
    requires Requesting(sent, processed, found, log, rules) && p in sent.recorded
    ensures Site(log, p, sent.recorded[p], rules, found)
  {
    assert RecordedAt(sent.recorded, log, rules.maximumDepth, p);
  }

  function DepthsOf(queue: Queue, taken: seq<Path>): map<Path, int> {
    map p | p in taken && p in queue.depths :: queue.depths[p]
  }

  ghost predicate AllIn(paths: seq<Path>, queue: Queue) { forall p :: p in paths ==> p in queue.depths }

  datatype ErrorKind = AuthenticationError | TransportError | RateLimitedError | OtherError

  /** One entry of a bulk reply, which has one entry for each requested path, in order. */
  datatype Item = Item(status: Option<int>, resource: Option<Resource>, malformed: bool) {
    // A server error or an unusable item may be recovered by one individual read.
    predicate Recoverable() {
      resource.None? && (malformed || (status.Some? && 500 <= status.value <= 599))
    }
  }

  datatype BulkReply = Items(items: seq<Item>) | Malformed | BulkFailed(error: ErrorKind)

  datatype SingleReply = Found(resource: Resource) | NotFound | SingleFailed(error: ErrorKind)

  /** A request with its reply. */
  datatype Exchange = Bulk(paths: seq<Path>, reply: BulkReply) | Single(path: Path, single: SingleReply)

  // An unusable reply is recovered path by path.
  function ItemsOf(reply: BulkReply, n: nat): seq<Item> {
    if reply.Items? then reply.items else seq(n, i => Item(None, None, true))
  }

  /** What the items give without being read again. */
  ghost function UsableOf(items: seq<Item>): (r: seq<Option<Resource>>)
    ensures |r| == |items|
  {
    seq(|items|, i requires 0 <= i < |items| => if items[i].Recoverable() then None else items[i].resource)
  }

  /** The results of a request, added to what was found before. */
  ghost function KeepAll(found: map<Path, Resource>, paths: seq<Path>, results: seq<Option<Resource>>): map<Path, Resource>
    requires |results| == |paths|
  {
    if paths == [] then found
    else
      var n := |paths| - 1;
      var earlier := KeepAll(found, paths[..n], results[..n]);
      if results[n].Some? then earlier[paths[n] := results[n].value] else earlier
  }

  ghost function FoundBy(found: map<Path, Resource>, e: Exchange): map<Path, Resource> {
    match e
    case Bulk(paths, reply) =>
      if |ItemsOf(reply, |paths|)| == |paths| then KeepAll(found, paths, UsableOf(ItemsOf(reply, |paths|))) else found
    case Single(p, Found(r)) => found[p := r]
    case _ => found
  }

  /** Exactly the usable results of these exchanges. */
  ghost function FoundIn(wire: seq<Exchange>): map<Path, Resource> {
    if wire == [] then map[] else FoundBy(FoundIn(wire[..|wire| - 1]), wire[|wire| - 1])
  }

  ghost function BulkOf(wire: seq<Exchange>): seq<seq<Path>> {
    if wire == [] then []
    else BulkOf(wire[..|wire| - 1]) + if wire[|wire| - 1].Bulk? then [wire[|wire| - 1].paths] else []
  }

  /** The exchanges so far are these requests, and what was found is exactly what they returned. */
  ghost predicate Answered(wire: seq<Exchange>, requests: seq<seq<Path>>, found: map<Path, Resource>) {
    BulkOf(wire) == requests && found == FoundIn(wire)
  }

  /** One bulk request and the individual reads of its recoverable items, in order, as far as they went. */
  ghost predicate IsRequest(events: seq<Exchange>, paths: seq<Path>, items: seq<Item>, singles: seq<SingleReply>) {
    && events != [] && events[0].Bulk? && events[0].paths == paths
    && |items| == |paths| && items == ItemsOf(events[0].reply, |paths|)
    && |events| == |singles| + 1 && |singles| <= |Broken(paths, items)|
    && forall i :: 0 <= i < |singles| ==> events[i + 1] == Single(Broken(paths, items)[i], singles[i])
  }

  ghost function Broken(paths: seq<Path>, items: seq<Item>): seq<Path>
    requires |items| == |paths|
  {
    if paths == [] then []
    else
      var n := |paths| - 1;
      Broken(paths[..n], items[..n]) + if items[n].Recoverable() then [paths[n]] else []
  }

  /** A request that ended the run: its results were not kept. */
  ghost predicate BrokenOff(wire: seq<Exchange>, requests: seq<seq<Path>>, found: map<Path, Resource>) {
    BulkOf(wire) == requests && exists n :: BrokenAt(wire, n, found)
  }

  ghost predicate BrokenAt(wire: seq<Exchange>, n: int, found: map<Path, Resource>) {
    0 <= n < |wire| && wire[n].Bulk? && (forall k :: n < k < |wire| ==> wire[k].Single?) && found == FoundIn(wire[..n])
  }

  lemma {:induction false} KeepsExactly(found: map<Path, Resource>, paths: seq<Path>, results: seq<Option<Resource>>, p: Path)
    requires |results| == |paths| && NoRepeats(paths)
    ensures var after := KeepAll(found, paths, results);
            && (forall i :: 0 <= i < |paths| && paths[i] == p ==>
                  if results[i].Some? then p in after && after[p] == results[i].value
                  else (p in after <==> p in found) && (p in after ==> after[p] == found[p]))
            && (p !in paths ==> (p in after <==> p in found) && (p in after ==> after[p] == found[p]))
  {
    if paths != [] {
      var n := |paths| - 1;
      assert paths[n] !in paths[..n];
      KeepsExactly(found, paths[..n], results[..n], p);
    }
  }

  // What was usable at once is kept all the same when everything is kept.
  lemma KeepsOver(found: map<Path, Resource>, paths: seq<Path>, first: seq<Option<Resource>>, results: seq<Option<Resource>>)
    requires |first| == |results| == |paths| && NoRepeats(paths)
    requires forall i :: 0 <= i < |paths| && first[i].Some? ==> results[i] == first[i]
    ensures KeepAll(KeepAll(found, paths, first), paths, results) == KeepAll(found, paths, results)
  {
    var once := KeepAll(found, paths, first);
    forall p ensures var a, b := KeepAll(once, paths, results), KeepAll(found, paths, results);
                     (p in a <==> p in b) && (p in a ==> a[p] == b[p])
    {
      KeepsExactly(found, paths, first, p);
      KeepsExactly(once, paths, results, p);
      KeepsExactly(found, paths, results, p);
    }
  }

  lemma KeepNext(found: map<Path, Resource>, paths: seq<Path>, i: nat, results: seq<Option<Resource>>, r: Option<Resource>)
    requires i < |paths| && |results| == i
    ensures KeepAll(found, paths[..i + 1], results + [r]) ==
              var earlier := KeepAll(found, paths[..i], results); if r.Some? then earlier[paths[i] := r.value] else earlier
  {
    assert paths[..i + 1][..i] == paths[..i] && (results + [r])[..i] == results;
  }

  // An item that was usable at once is already kept.
  lemma AlreadyKept(found: map<Path, Resource>, paths: seq<Path>, items: seq<Item>, i: nat, results: seq<Option<Resource>>)
    requires i < |paths| && |items| == |paths| && |results| == i && NoRepeats(paths) && !items[i].Recoverable()
    ensures var base := KeepAll(found, paths, UsableOf(items));
            KeepAll(base, paths[..i + 1], results + [items[i].resource]) == KeepAll(base, paths[..i], results)
  {
    var base := KeepAll(found, paths, UsableOf(items));
    KeepsExactly(found, paths, UsableOf(items), paths[i]);
    KeepsExactly(base, paths[..i], results, paths[i]);
    KeepNext(base, paths, i, results, items[i].resource);
  }

  lemma FoundNext(wire: seq<Exchange>, e: Exchange)
    ensures FoundIn(wire + [e]) == FoundBy(FoundIn(wire), e)
    ensures BulkOf(wire + [e]) == BulkOf(wire) + if e.Bulk? then [e.paths] else []
  {
    assert (wire + [e])[..|wire|] == wire;
  }

  lemma {:induction false} SinglesAreNoRequests(wire: seq<Exchange>, events: seq<Exchange>)
    requires forall i :: 0 <= i < |events| ==> events[i].Single?
    ensures BulkOf(wire + events) == BulkOf(wire)
  {
    if events == [] {
      assert wire + events == wire;
    } else {
      var n := |events| - 1;
      SinglesAreNoRequests(wire, events[..n]);
      assert wire + events == wire + events[..n] + [events[n]];
      FoundNext(wire + events[..n], events[n]);
    }
  }

  predicate Limited(items: seq<Item>) { exists i :: 0 <= i < |items| && items[i].status == Some(429) }

  predicate Fatal(reply: SingleReply) {
    reply.SingleFailed? && (reply.error.AuthenticationError? || reply.error.TransportError?)
  }

  // What breaks off a run, and what is read once more.
  lemma RepliesMean(items: seq<Item>, reply: SingleReply, item: Item, bulk: BulkReply, n: nat)
    ensures Limited(items) <==> exists x :: x in items && x.status == Some(429)
    ensures Fatal(reply) <==> reply in [SingleFailed(AuthenticationError), SingleFailed(TransportError)]
    ensures item.Recoverable() <==>
              item.resource == None && (item.malformed || exists s :: 500 <= s < 600 && item.status == Some(s))
    ensures bulk.Items? ==> ItemsOf(bulk, n) == bulk.items
    ensures !bulk.Items? ==> |ItemsOf(bulk, n)| == n && forall i :: 0 <= i < n ==> ItemsOf(bulk, n)[i].Recoverable()
  {
    if x :| x in items && x.status == Some(429) {
      var i :| 0 <= i < |items| && items[i] == x;
    }
  }

  /** The error with which an exchange ends the run, if it does. */
  ghost function ErrorOf(e: Exchange): Option<ErrorKind> {
    match e
    case Bulk(_, BulkFailed(error)) => Some(error)
    case Bulk(paths, reply) => if Limited(ItemsOf(reply, |paths|)) then Some(RateLimitedError) else None
    case Single(_, reply) => if Fatal(reply) then Some(reply.error) else None
  }

  ghost predicate NoErrors(wire: seq<Exchange>) { forall k :: 0 <= k < |wire| ==> ErrorOf(wire[k]).None? }

  /** A run stops with an error exactly when its last exchange ends it; no other one does. */
  ghost predicate StopsAt(wire: seq<Exchange>, stop: Option<ErrorKind>) {
    if stop.None? then NoErrors(wire)
    else wire != [] && NoErrors(wire[..|wire| - 1]) && ErrorOf(wire[|wire| - 1]) == stop
  }

  lemma StopsNext(wire: seq<Exchange>, e: Exchange)
    requires StopsAt(wire, None)
    ensures StopsAt(wire + [e], ErrorOf(e)) == true
  {
    assert (wire + [e])[..|wire|] == wire;
  }

  /** How far a run got: every request was answered, or the last exchange failed with this error. */
  ghost predicate Stands(wire: seq<Exchange>, requests: seq<seq<Path>>, found: map<Path, Resource>, stop: Option<ErrorKind>) {
    StopsAt(wire, stop) && if stop.Some? then BrokenOff(wire, requests, found) else Answered(wire, requests, found)
  }

  ghost function ErrorIn(stop: Option<Outcome>): Option<ErrorKind> {
    if stop.Some? && stop.value.Raised? then Some(stop.value.error) else None
  }

  /** The last request is still to be answered. */
  ghost predicate Asks(wire: seq<Exchange>, requests: seq<seq<Path>>, frontier: seq<Path>, found: map<Path, Resource>) {
    requests != [] && requests[|requests| - 1] == frontier && Answered(wire, requests[..|requests| - 1], found)
  }

  lemma AsksNext(wire: seq<Exchange>, requests: seq<seq<Path>>, frontier: seq<Path>, found: map<Path, Resource>)
    requires Answered(wire, requests, found)
    ensures Asks(wire, requests + [frontier], frontier, found)
  {
    assert (requests + [frontier])[..|requests|] == requests;
  }

  lemma AskedOne(wire: seq<Exchange>, events: seq<Exchange>, requests: seq<seq<Path>>, found: map<Path, Resource>,
                 paths: seq<Path>, items: seq<Item>, singles: seq<SingleReply>)
    requires Asks(wire, requests, paths, found) && IsRequest(events, paths, items, singles)
    ensures BrokenOff(wire + events, requests, found)
  {
    OneRequest(wire, events, requests[..|requests| - 1], found, paths, items, singles);
    assert requests == requests[..|requests| - 1] + [paths];
  }

  lemma AskedKept(wire: seq<Exchange>, events: seq<Exchange>, requests: seq<seq<Path>>, found: map<Path, Resource>,
                  paths: seq<Path>, items: seq<Item>, singles: seq<SingleReply>, results: seq<Option<Resource>>)
    requires Asks(wire, requests, paths, found) && IsRequest(events, paths, items, singles)
    requires |results| == |paths| && KeepAll(FoundIn(wire), paths, results) == FoundIn(wire + events)
    ensures Answered(wire + events, requests, KeepAll(found, paths, results))
  {
    OneRequest(wire, events, requests[..|requests| - 1], found, paths, items, singles);
    assert requests == requests[..|requests| - 1] + [paths];
  }

  lemma OneRequest(wire: seq<Exchange>, events: seq<Exchange>, requests: seq<seq<Path>>, found: map<Path, Resource>,
                   paths: seq<Path>, items: seq<Item>, singles: seq<SingleReply>)
    requires Answered(wire, requests, found) && IsRequest(events, paths, items, singles)
    ensures BulkOf(wire + events) == requests + [paths] && BrokenOff(wire + events, requests + [paths], found)
  {
    var first, rest := events[0], events[1..];
    RestIsSingle(events, paths, items, singles);
    FoundNext(wire, first);
    SinglesAreNoRequests(wire + [first], rest);
    BreaksOff(wire, first, rest, found);
    FirstThenRest(wire, events);
  }

  lemma FirstThenRest(wire: seq<Exchange>, events: seq<Exchange>)
    requires events != []
    ensures wire + events == wire + [events[0]] + events[1..]
  {
  }

  lemma RestIsSingle(events: seq<Exchange>, paths: seq<Path>, items: seq<Item>, singles: seq<SingleReply>)
    requires IsRequest(events, paths, items, singles)
    ensures forall i :: 0 <= i < |events[1..]| ==> events[1..][i].Single?
  {
    forall i | 0 <= i < |events[1..]| ensures events[1..][i].Single? {
      assert events[i + 1] == Single(Broken(paths, items)[i], singles[i]);
    }
  }

  lemma BreaksOff(wire: seq<Exchange>, first: Exchange, rest: seq<Exchange>, found: map<Path, Resource>)
    requires first.Bulk? && found == FoundIn(wire) && forall i :: 0 <= i < |rest| ==> rest[i].Single?
    ensures BrokenAt(wire + [first] + rest, |wire|, found)
  {
    var all := wire + [first] + rest;
    assert all[..|wire|] == wire;
    forall k | |wire| < k < |all| ensures all[k].Single? {
      assert all[k] == rest[k - |wire| - 1];
    }
  }

  datatype Outcome =
    | Complete | DepthLimit | ResourceLimit | BoundsRejected | Raised(error: ErrorKind)

  class Discovery {
    const rules: Rules
    var work: Worklist
    var found: map<Path, Resource>
    var rrcEnabled: bool
    var softenerProfile: bool
    var paid: set<Path>
    ghost var log: seq<Entry>
    ghost var sent: Sent
    ghost var wire: seq<Exchange>

    ghost predicate Valid()
      reads `work, `log, `found
    {
      Scheduling(work, log, rules, found) == true
    }

    ghost predicate Consistent()
      reads `work, `log, `found, `sent
    {
      Valid() && Requesting(sent, work.processed, found, log, rules) == true
    }

    /** A new run; `paid` are the distinct paths already charged to the budget shared with start-up reads. */
    constructor (rules: Rules, paid: set<Path>)
      ensures this.rules == rules && this.paid == paid
      ensures Consistent() && log == [] && sent == Sent([], map[]) && work.processed == {} && found == map[] && wire == []
      ensures !rrcEnabled && softenerProfile == rules.softener
    {
      this.rules, this.paid := rules, paid;
      var none := Queue([], map[]);
      var empty := Worklist([none, none, none], {}, {}, false, map[], false, {});
      work, found, rrcEnabled, softenerProfile := empty, map[], false, rules.softener;
      log, sent, wire := [], Sent([], map[]), [];
      new;
      forall p ensures PlacedAt(empty.queues, {}, {}, [], rules, p) {
      }
      forall p ensures SourceBest(empty.sources, [], p) {
      }
    }

    /** Records a path and its source; queues it unless it is exempt, already requested or too deep. */
    method Schedule(path: Path, depth: int, source: Source, ghost parent: Option<Path>)
      requires Valid() && Justified(log, Entry(path, depth, source, parent), rules, found)
      modifies `work, `log
      ensures Valid() && log == old(log) + [Entry(path, depth, source, parent)] && work.processed == old(work.processed)
      ensures work.omittedLicense == (old(work.omittedLicense) || path == StartupData.LICENSE_PATH)
      ensures work.handedOver == old(work.handedOver)
                                 + if path != StartupData.LICENSE_PATH && Exempt(rules, path) then {path} else {}
    {
      ghost var e := Entry(path, depth, source, parent);
      JustifiedNext(log, e, rules, found);
      SourcesNext(work.sources, log, e);
      var w := work;
      if path !in w.sources || Rank(source) < Rank(w.sources[path]) {
        w := w.(sources := w.sources[path := source]);
      }
      assert SourceBest(w.sources, log + [e], path);
      if path == StartupData.LICENSE_PATH {
        StaysInPlace(w.queues, w.processed, w.limited, log, rules, e);
        w := w.(omittedLicense := true);
      } else if rules.recovering && rules.tables.isStartup(path) {
        StaysInPlace(w.queues, w.processed, w.limited, log, rules, e);
        w := w.(handedOver := w.handedOver + {path});
      } else if path in w.processed {
        StaysInPlace(w.queues, w.processed, w.limited, log, rules, e);
      } else {
        w := Enqueue(w, path, depth, rules, log, e);
      }
      HandsOverNext(work, log, rules, e, w);
      work, log := w, log + [e];
    }

    // Queues a path at its least depth and best rank, or remembers that it is too deep.
    static method Enqueue(w: Worklist, path: Path, depth: int, rules: Rules, ghost log: seq<Entry>, ghost e: Entry)
      returns (after: Worklist)
      requires InPlace(w.queues, w.processed, w.limited, log, rules) && (w.limitReached <==> w.limited != {})
      requires e.path == path && e.depth == depth && !Exempt(rules, path) && path !in w.processed
      requires path in w.sources && SourceBest(w.sources, log + [e], path)
      ensures InPlace(after.queues, after.processed, after.limited, log + [e], rules)
      ensures (after.limitReached <==> after.limited != {}) && after.sources == w.sources && after.processed == w.processed
      ensures after.omittedLicense == w.omittedLicense && after.handedOver == w.handedOver
    {
      var relaxed := RelaxedDepth(w.queues, path, depth);
      if relaxed > rules.maximumDepth {
        TooDeepInPlace(w.queues, w.processed, w.limited, log, rules, e);
        return w.(limited := w.limited + {path}, limitReached := true);
      }
      MovedInPlace(w.queues, w.processed, w.limited, log, rules, e);
      after := w.(limited := w.limited - {path}, limitReached := w.limited - {path} != {},
                  queues := Moved(w.queues, path, Rank(w.sources[path]), relaxed));
    }

    method ScheduleAll(children: seq<Path>, depth: int, source: Source, ghost parent: Path)
      requires Valid() && Site(log, parent, depth - 1, rules, found)
      requires forall c :: c in children ==> Edge(rules, found, parent, c, source)
      modifies `work, `log
      ensures work.processed == old(work.processed)
      ensures Valid() && log == old(log) + Calls(children, depth, source, Some(parent)) && Site(log, parent, depth - 1, rules, found)
    {
      for i := 0 to |children|
        invariant work.processed == old(work.processed)
        invariant Valid() && log == old(log) + Calls(children[..i], depth, source, Some(parent))
      {
        SiteStays(old(log), log, parent, depth - 1, rules, found);
        Schedule(children[i], depth, source, Some(parent));
        CallsNext(children, i, depth, source, Some(parent));
      }
      assert children[..|children|] == children;
      SiteStays(old(log), log, parent, depth - 1, rules, found);
    }

    method ScheduleChildren(path: Path, depth: int)
      requires Valid() && Site(log, path, depth, rules, found)
      modifies `work, `log, `rrcEnabled
      ensures work.processed == old(work.processed)
      ensures Valid() && old(log) <= log
      ensures Trail(log[|old(log)|..], rrcEnabled) == ChildTrail(rules.tables, path, depth, old(rrcEnabled), softenerProfile)
    {
      ScheduleAll(CatalogChildren(rules.tables, path, rrcEnabled), depth + 1, Catalog, path);
      ghost var first := log;
      ScheduleAll(Probes(rules.tables, path, softenerProfile), depth + 1, Optional, path);
      TwoParts(old(log), first, log);
      rrcEnabled := rrcEnabled || rules.tables.zoneRoot(path).Some?;
    }

    method FollowOne(child: Path, depth: int, ghost parent: Path)
      requires Valid() && Site(log, parent, depth - 1, rules, found) && Edge(rules, found, parent, child, Reference)
      modifies `work, `log, `rrcEnabled
      ensures work.processed == old(work.processed)
      ensures Valid() && old(log) <= log && (old(rrcEnabled) ==> rrcEnabled)
      ensures var below := ChildTrail(rules.tables, child, depth, old(rrcEnabled), softenerProfile);
              Trail(log[|old(log)|..], rrcEnabled) == Trail([Entry(child, depth, Reference, Some(parent))] + below.calls, below.rrcEnabled)
    {
      Schedule(child, depth, Reference, Some(parent));
      assert log[|old(log)|] == Entry(child, depth, Reference, Some(parent));
      ghost var reported := log;
      ScheduleChildren(child, depth);
      OneThenMore(old(log), Entry(child, depth, Reference, Some(parent)), reported, log);
    }

    // Follows advertised children: each allowed one is reported, and its curated children are probed.
    method Follow(children: seq<Path>, depth: int, ghost parent: Path, restricted: bool)
      requires Valid() && Site(log, parent, depth - 1, rules, found)
      requires parent in found && (restricted ==> children == found[parent].references)
      requires !restricted ==> found[parent].listed == Some(children)
      modifies `work, `log, `rrcEnabled
      ensures work.processed == old(work.processed)
      ensures Valid() && old(log) <= log && (old(rrcEnabled) ==> rrcEnabled)
      ensures Trail(log[|old(log)|..], rrcEnabled) ==
                FollowTrail(rules, children, depth, parent, restricted, old(rrcEnabled), softenerProfile)
    {
      for i := 0 to |children|
        invariant work.processed == old(work.processed)
        invariant Valid() && old(log) <= log && (old(rrcEnabled) ==> rrcEnabled)
        invariant Trail(log[|old(log)|..], rrcEnabled) ==
                    FollowTrail(rules, children[..i], depth, parent, restricted, old(rrcEnabled), softenerProfile)
      {
        var child := children[i];
        FollowTrailNext(rules, children, i, depth, parent, restricted, old(rrcEnabled), softenerProfile);
        AllowedWhenever(rules, child, rrcEnabled);
        if restricted && !Under(child, Allowed(rules, rrcEnabled)) {
          continue;
        }
        ghost var before := log;
        SiteStays(old(log), log, parent, depth - 1, rules, found);
        FollowOne(child, depth, parent);
        TwoParts(old(log), before, log);
      }
      assert children[..|children|] == children;
    }

    // The identifier list of a zone list enables the program resources; valid lists are followed.
    method FollowLists(p: Path, depth: int)
      requires Valid() && p in found && Site(log, p, depth, rules, found)
      modifies `work, `log, `rrcEnabled
      ensures work.processed == old(work.processed)
      ensures Valid() && old(log) <= log
      ensures Trail(log[|old(log)|..], rrcEnabled) == ListTrail(rules, found[p], p, depth, old(rrcEnabled), softenerProfile)
    {
      var resource := found[p];
      EnablePrograms(p, depth);
      ghost var before := log;
      if (resource.path == ZONE_LIST || rrcEnabled) && resource.listed.Some? {
        Follow(resource.listed.value, depth + 1, p, false);
        TwoParts(old(log), before, log);
      }
    }

    method EnablePrograms(p: Path, depth: int)
      requires Valid() && p in found && Site(log, p, depth, rules, found)
      modifies `work, `log, `rrcEnabled
      ensures work.processed == old(work.processed)
      ensures var enables := found[p].path == ZONE_LIST && found[p].listed.Some? && !old(rrcEnabled);
              && rrcEnabled == (old(rrcEnabled) || enables)
              && log == old(log) + if enables then Calls([PROGRAM_ROOT, PROGRAM_LIST], depth + 1, Catalog, Some(p)) else []
      ensures Valid() && Site(log, p, depth, rules, found)
    {
      if found[p].path == ZONE_LIST && found[p].listed.Some? && !rrcEnabled {
        ScheduleAll([PROGRAM_ROOT, PROGRAM_LIST], depth + 1, Catalog, p);
        rrcEnabled := true;
      }
    }

    predicate IsSoftener()
      reads `found
    {
      SoftenerKnown(rules, found)
    }

    // Explicit model evidence adds the softener circuit.
    method NoticeSoftener()
      requires Valid()
      modifies `work, `log, `rrcEnabled, `softenerProfile
      ensures work.processed == old(work.processed)
      ensures Valid() && old(log) <= log && softenerProfile == (old(softenerProfile) || IsSoftener())
      ensures Trail(log[|old(log)|..], rrcEnabled) ==
                SoftenerTrail(rules.tables, softenerProfile && !old(softenerProfile), old(rrcEnabled))
    {
      if !softenerProfile && IsSoftener() {
        softenerProfile := true;
        Schedule(SOFTENER_ROOT, 0, Catalog, None);
        ghost var reported := log;
        ScheduleChildren(SOFTENER_SITE, 1);
        OneThenMore(old(log), Entry(SOFTENER_ROOT, 0, Catalog, None), reported, log);
      }
    }

    // Keeps one resource and schedules everything it advertises and everything curated below it.
    method Expand(p: Path, depth: int, resource: Resource)
      requires Consistent() && p in work.processed && p !in found && Site(log, p, depth, rules, found)
      requires p in sent.recorded && depth == sent.recorded[p]
      modifies `work, `log, `rrcEnabled, `softenerProfile, `found
      ensures work.processed == old(work.processed)
      ensures Consistent() && old(log) <= log && found == old(found)[p := resource]
      ensures softenerProfile == (old(softenerProfile) || IsSoftener())
      ensures Trail(log[|old(log)|..], rrcEnabled) ==
                ExpandTrail(rules, resource, p, depth, old(rrcEnabled), old(softenerProfile), softenerProfile)
    {
      JustifiedMore(log, rules, found, p, resource);
      found := found[p := resource];
      ExpandKept(p, depth);
      ExpandFollows(rules, resource, p, depth, old(rrcEnabled), old(softenerProfile), softenerProfile);
      FollowedWithin(resource, p, depth, old(log), log, rules);
      ExpandedRequesting(sent, work.processed, old(found), old(log), log, rules, p, resource);
    }

    method ExpandKept(p: Path, depth: int)
      requires Valid() && p in found && Site(log, p, depth, rules, found)
      modifies `work, `log, `rrcEnabled, `softenerProfile
      ensures work.processed == old(work.processed)
      ensures Valid() && old(log) <= log && softenerProfile == (old(softenerProfile) || IsSoftener())
      ensures Trail(log[|old(log)|..], rrcEnabled) ==
                ExpandTrail(rules, found[p], p, depth, old(rrcEnabled), old(softenerProfile), softenerProfile)
    {
      FollowLists(p, depth);
      ghost var first := log;
      NoticeSoftener();
      SiteStays(old(log), log, p, depth, rules, found);
      ghost var second := log;
      ExpandBelow(p, depth);
      ThreeParts(old(log), first, second, log);
    }

    method ExpandBelow(p: Path, depth: int)
      requires Valid() && p in found && Site(log, p, depth, rules, found)
      modifies `work, `log, `rrcEnabled
      ensures work.processed == old(work.processed)
      ensures Valid() && old(log) <= log
      ensures Trail(log[|old(log)|..], rrcEnabled) == BelowTrail(rules, found[p], p, depth, old(rrcEnabled), softenerProfile)
    {
      ScheduleChildren(p, depth);
      ghost var first := log;
      SiteStays(old(log), log, p, depth, rules, found);
      Follow(found[p].references, depth + 1, p, true);
      TwoParts(old(log), first, log);
    }

    function FirstQueue(): (rank: nat)
      requires |work.queues| == 3
      reads `work
      ensures rank < 3 && IsFirst(work, rank)
      ensures work.queues[rank].order == [] ==> AllEmpty(work)
    {
      if work.queues[0].order != [] then 0 else if work.queues[1].order != [] then 1 else 2
    }

    // Charges a frontier to the budget shared with the start-up reads; what does not fit stays queued.
    method Admit(candidates: seq<Path>) returns (frontier: seq<Path>)
      requires NoRepeats(candidates)
      modifies `paid
      ensures NoRepeats(frontier) && |frontier| <= |candidates| && forall p :: p in frontier ==> p in candidates
      ensures |paid| <= Max(|old(paid)|, rules.maximumResources)
      ensures paid == old(paid) + if rules.recovering then Elements(frontier) else {}
      ensures frontier == if rules.recovering then StartupData.Reserved(candidates, old(paid), rules.maximumResources) else candidates
      ensures frontier == [] && candidates != [] ==> rules.recovering && |old(paid)| >= rules.maximumResources
    {
      frontier := candidates;
      if rules.recovering {
        StartupData.ReservedSelects(candidates, paid, rules.maximumResources);
        StartupData.ReservedWithinBudget(candidates, paid, rules.maximumResources);
        frontier := StartupData.Reserved(candidates, paid, rules.maximumResources);
        assert paid + Elements<Path>([]) == paid;
        paid := paid + Elements(frontier);
      }
    }

    method NextFrontier(ghost rank: nat, queue: Queue) returns (frontier: seq<Path>)
      requires queue.Ok() && |work.processed| < rules.maximumResources && rank < |work.queues| && queue == work.queues[rank]
      modifies `paid
      ensures frontier == HeadOf(work, rules, rank, old(paid))
      ensures NoRepeats(frontier) == true && |frontier| <= MAX_BULK_PATHS && |work.processed| + |frontier| <= rules.maximumResources
      ensures AllIn(frontier, queue) == true
      ensures paid == old(paid) + if rules.recovering then Elements(frontier) else {}
      ensures frontier == [] && queue.order != [] ==> rules.recovering && |old(paid)| >= rules.maximumResources
      ensures |paid| <= Max(|old(paid)|, rules.maximumResources)
    {
      var capacity := Min(Min(MAX_BULK_PATHS, rules.maximumResources - |work.processed|), |queue.order|);
      RepeatFreePrefix(queue.order, capacity);
      FirstOfIs(queue.order, Min(MAX_BULK_PATHS, rules.maximumResources - |work.processed|), capacity);
      frontier := Admit(queue.order[..capacity]);
    }

    // Takes an admitted frontier from its queue.
    method Take(rank: nat, frontier: seq<Path>) returns (depths: map<Path, int>)
      requires Consistent() && rank < 3 && NoRepeats(frontier) == true && 1 <= |frontier| <= MAX_BULK_PATHS
      requires AllIn(frontier, work.queues[rank]) == true
      modifies `work, `sent
      ensures Consistent() && Takes(old(work), old(sent), rank, frontier, work, sent) == true
      ensures TakenWith(frontier, depths, sent.recorded, work.processed, found) == true
      ensures |work.processed| == |old(work).processed| + |frontier|
    {
      var next;
      ghost var nextSent;
      next, nextSent, depths := Leave(work, log, rules, sent, found, rank, frontier);
      Replace(next, nextSent);
    }

    method Replace(next: Worklist, ghost nextSent: Sent)
      requires Scheduling(next, log, rules, found) == true && Requesting(nextSent, next.processed, found, log, rules) == true
      modifies `work, `sent
      ensures work == next && sent == nextSent && Consistent()
    {
      work, sent := next, nextSent;
    }

    // The worklist and the record of requests after a frontier left its queue.
    static method Leave(w: Worklist, ghost log: seq<Entry>, ghost rules: Rules, ghost sent: Sent, found: map<Path, Resource>, rank: nat,
                        frontier: seq<Path>)
      returns (next: Worklist, ghost nextSent: Sent, depths: map<Path, int>)
      requires Scheduling(w, log, rules, found) == true && Requesting(sent, w.processed, found, log, rules) == true && rank < 3
      requires NoRepeats(frontier) == true && 1 <= |frontier| <= MAX_BULK_PATHS && AllIn(frontier, w.queues[rank]) == true
      ensures Scheduling(next, log, rules, found) == true && Requesting(nextSent, next.processed, found, log, rules) == true
      ensures |next.processed| == |w.processed| + |frontier| && Takes(w, sent, rank, frontier, next, nextSent) == true
      ensures TakenWith(frontier, depths, nextSent.recorded, next.processed, found) == true
    {
      next, depths := Taken(w, rank, frontier), DepthsOf(w.queues[rank], frontier);
      nextSent := SentNext(sent, w.queues[rank], frontier);
      TakeStep(w, log, rules, sent, found, rank, frontier, next, nextSent, depths);
    }

    // Takes a frontier of the first queue that is not empty: it is the next request.
    method Ask(rank: nat, frontier: seq<Path>) returns (depths: map<Path, int>)
      requires Consistent() && rank < 3 && NoRepeats(frontier) == true && 1 <= |frontier| <= MAX_BULK_PATHS
      requires AllIn(frontier, work.queues[rank]) == true
      requires Answered(wire, sent.requests, found) == true
      modifies `work, `sent
      ensures Consistent() && Asks(wire, sent.requests, frontier, found) == true
      ensures sent.requests == old(sent).requests + [frontier]
      ensures TakenWith(frontier, depths, sent.recorded, work.processed, found) == true
      ensures |work.processed| == |old(work).processed| + |frontier|
    {
      ghost var before, earlier := work, sent;
      depths := Take(rank, frontier);
      TakeAsks(before, log, rules, earlier, found, wire, rank, frontier, work, sent);
    }

    // The cloud answers every request arbitrarily; a bulk reply has one item for each path, in order, or is unusable.
    method BulkRead(frontier: seq<Path>) returns (reply: BulkReply)
      modifies `wire
      ensures wire == old(wire) + [Bulk(frontier, reply)] && |ItemsOf(reply, |frontier|)| == |frontier|
    {
      reply := *;
      if reply.Items? && |reply.items| != |frontier| {
        reply := Malformed;
      }
      wire := wire + [Bulk(frontier, reply)];
    }

    method SingleRead(p: Path) returns (reply: SingleReply)
      modifies `wire
      ensures wire == old(wire) + [Single(p, reply)]
    {
      reply := *;
      wire := wire + [Single(p, reply)];
    }

    // One request for a frontier, and the recovery of its items. The results are exactly what the exchanges returned.
    method Fetch(frontier: seq<Path>)
      returns (results: seq<Option<Resource>>, failure: Option<ErrorKind>,
               ghost events: seq<Exchange>, ghost items: seq<Item>, ghost singles: seq<SingleReply>)
      requires NoRepeats(frontier) == true && StopsAt(wire, None) == true
      modifies `wire
      ensures StopsAt(wire, failure) == true
      ensures wire == old(wire) + events && IsRequest(events, frontier, items, singles)
      ensures failure.None? ==> |results| == |frontier| && KeepAll(FoundIn(old(wire)), frontier, results) == FoundIn(wire)
      ensures events[0].reply.BulkFailed? ==> failure == Some(events[0].reply.error) && singles == []
      ensures !events[0].reply.BulkFailed? && Limited(items) ==> failure == Some(RateLimitedError) && singles == []
      ensures failure.None? ==> Recovered(items, singles, results)
      ensures failure.Some? && !events[0].reply.BulkFailed? && !Limited(items) ==> singles != []
    {
      ghost var before := wire;
      var reply := BulkRead(frontier);
      ghost var asked := wire;
      items, singles, events := ItemsOf(reply, |frontier|), [], [Bulk(frontier, reply)];
      StopsNext(before, Bulk(frontier, reply));
      if reply.BulkFailed? {
        return [], Some(reply.error), events, items, singles;
      }
      if Limited(ItemsOf(reply, |frontier|)) {
        return [], Some(RateLimitedError), events, items, singles;
      }
      FoundNext(before, Bulk(frontier, reply));
      results, failure, singles := Recover(frontier, ItemsOf(reply, |frontier|), FoundIn(before));
      events := events + wire[|asked|..];
      assert wire == before + events;
      if failure.None? {
        RecoveredKeeps(FoundIn(before), frontier, items, singles, results);
      }
    }

    // Reads every recoverable item once more, on its own.
    method Recover(frontier: seq<Path>, items: seq<Item>, ghost earlier: map<Path, Resource>)
      returns (results: seq<Option<Resource>>, failure: Option<ErrorKind>, ghost singles: seq<SingleReply>)
      requires |items| == |frontier| && NoRepeats(frontier) == true
      requires FoundIn(wire) == KeepAll(earlier, frontier, UsableOf(items)) && StopsAt(wire, None) == true
      modifies `wire
      ensures old(wire) <= wire && IsReading(wire[|old(wire)|..], Broken(frontier, items), singles) == true
      ensures failure.None? ==>
                && Recovered(items, singles, results) == true && |results| == |frontier|
                && FoundIn(wire) == KeepAll(KeepAll(earlier, frontier, UsableOf(items)), frontier, results)
      ensures StopsAt(wire, failure) == true && (failure.Some? ==> singles != [])
    {
      results, failure, singles := [], None, [];
      ghost var before := wire;
      RecoveringNone(before, frontier, items, earlier);
      for i := 0 to |items|
        invariant failure.None? && |results| == i && StopsAt(wire, None) == true
        invariant Recovering(before, wire, frontier, items, i, singles, results, earlier) == true
      {
        results, failure, singles := RecoverOne(before, frontier, items, i, results, singles, earlier);
        if failure.Some? {
          RecoveringBreaks(before, wire, frontier, items, i + 1, singles, results, earlier);
          return;
        }
      }
      RecoveringEnds(before, wire, frontier, items, singles, results, earlier);
    }

    // One item: a usable one is kept, a recoverable one is read again.
    method RecoverOne(ghost before: seq<Exchange>, frontier: seq<Path>, items: seq<Item>, i: nat, done: seq<Option<Resource>>,
                      ghost read: seq<SingleReply>, ghost earlier: map<Path, Resource>)
      returns (results: seq<Option<Resource>>, failure: Option<ErrorKind>, ghost singles: seq<SingleReply>)
      requires i < |items| == |frontier| && |done| == i && NoRepeats(frontier) == true && StopsAt(wire, None) == true
      requires Recovering(before, wire, frontier, items, i, read, done, earlier) == true
      modifies `wire
      ensures |results| == i + 1 && Recovering(before, wire, frontier, items, i + 1, singles, results, earlier) == true
      ensures StopsAt(wire, failure) == true && (failure.Some? ==> singles != [])
    {
      failure, singles := None, read;
      if items[i].Recoverable() {
        ghost var sent := wire;
        var reply := SingleRead(frontier[i]);
        RecoversOne(before, sent, frontier, items, i, read, done, earlier, reply);
        StopsNext(sent, Single(frontier[i], reply));
        singles, results := read + [reply], done + [if reply.Found? then Some(reply.resource) else None];
        failure := if Fatal(reply) then Some(reply.error) else None;
      } else {
        RecoversNone(before, wire, frontier, items, i, read, done, earlier);
        results := done + [items[i].resource];
      }
    }

    static lemma RecoveringNone(before: seq<Exchange>, frontier: seq<Path>, items: seq<Item>, earlier: map<Path, Resource>)
      requires |items| == |frontier| && FoundIn(before) == KeepAll(earlier, frontier, UsableOf(items))
      ensures Recovering(before, before, frontier, items, 0, [], [], earlier) == true
    {
      assert items[..0] == [] && frontier[..0] == [] && before[|before|..] == [];
    }

    static lemma RecoveringBreaks(before: seq<Exchange>, wire: seq<Exchange>, frontier: seq<Path>, items: seq<Item>, i: nat,
                                  singles: seq<SingleReply>, results: seq<Option<Resource>>, earlier: map<Path, Resource>)
      requires i <= |items| == |frontier| && Recovering(before, wire, frontier, items, i, singles, results, earlier)
      ensures before <= wire && IsReading(wire[|before|..], Broken(frontier, items), singles)
    {
      BrokenPrefix(frontier, items, i);
    }

    static lemma RecoveringEnds(before: seq<Exchange>, wire: seq<Exchange>, frontier: seq<Path>, items: seq<Item>,
                                singles: seq<SingleReply>, results: seq<Option<Resource>>, earlier: map<Path, Resource>)
      requires |items| == |frontier| && Recovering(before, wire, frontier, items, |items|, singles, results, earlier)
      ensures before <= wire && IsReading(wire[|before|..], Broken(frontier, items), singles)
      ensures Recovered(items, singles, results) && |results| == |frontier|
      ensures FoundIn(wire) == KeepAll(KeepAll(earlier, frontier, UsableOf(items)), frontier, results)
    {
      assert items[..|items|] == items && frontier[..|items|] == frontier;
    }

    // The first `i` items are dealt with.
    static ghost predicate Recovering(before: seq<Exchange>, wire: seq<Exchange>, frontier: seq<Path>, items: seq<Item>, i: nat,
                                      singles: seq<SingleReply>, results: seq<Option<Resource>>, earlier: map<Path, Resource>)
      requires i <= |items| == |frontier|
    {
      && before <= wire && IsReading(wire[|before|..], Broken(frontier[..i], items[..i]), singles)
      && |singles| == |Broken(frontier[..i], items[..i])|
      && Recovered(items[..i], singles, results) && |results| == i
      && FoundIn(wire) == KeepAll(KeepAll(earlier, frontier, UsableOf(items)), frontier[..i], results)
    }

    static lemma RecoversOne(before: seq<Exchange>, wire: seq<Exchange>, frontier: seq<Path>, items: seq<Item>, i: nat,
                             singles: seq<SingleReply>, results: seq<Option<Resource>>, earlier: map<Path, Resource>, reply: SingleReply)
      requires i < |items| == |frontier| && items[i].Recoverable()
      requires Recovering(before, wire, frontier, items, i, singles, results, earlier)
      ensures Recovering(before, wire + [Single(frontier[i], reply)], frontier, items, i + 1, singles + [reply],
                         results + [if reply.Found? then Some(reply.resource) else None], earlier)
    {
      var e, r := Single(frontier[i], reply), if reply.Found? then Some(reply.resource) else None;
      FoundNext(wire, e);
      BrokenNext(frontier, items, i);
      KeepNext(KeepAll(earlier, frontier, UsableOf(items)), frontier, i, results, r);
      assert (wire + [e])[|before|..] == wire[|before|..] + [e];
      RecoveredOne(items, i, singles, results, reply);
    }

    static lemma RecoversNone(before: seq<Exchange>, wire: seq<Exchange>, frontier: seq<Path>, items: seq<Item>, i: nat,
                              singles: seq<SingleReply>, results: seq<Option<Resource>>, earlier: map<Path, Resource>)
      requires i < |items| == |frontier| && !items[i].Recoverable() && NoRepeats(frontier) == true
      requires Recovering(before, wire, frontier, items, i, singles, results, earlier)
      ensures Recovering(before, wire, frontier, items, i + 1, singles, results + [items[i].resource], earlier)
    {
      AlreadyKept(earlier, frontier, items, i, results);
      BrokenNext(frontier, items, i);
      RecoveredNone(items, i, singles, results);
    }

    static lemma RecoveredOne(items: seq<Item>, i: nat, singles: seq<SingleReply>, results: seq<Option<Resource>>, reply: SingleReply)
      requires i < |items| && items[i].Recoverable() && Recovered(items[..i], singles, results)
      ensures Recovered(items[..i + 1], singles + [reply], results + [if reply.Found? then Some(reply.resource) else None])
    {
      assert items[..i + 1][..i] == items[..i];
      assert (singles + [reply])[..|singles|] == singles;
      assert (results + [if reply.Found? then Some(reply.resource) else None])[..|results|] == results;
    }

    static lemma RecoveredNone(items: seq<Item>, i: nat, singles: seq<SingleReply>, results: seq<Option<Resource>>)
      requires i < |items| && !items[i].Recoverable() && Recovered(items[..i], singles, results)
      ensures Recovered(items[..i + 1], singles, results + [items[i].resource])
    {
      assert items[..i + 1][..i] == items[..i] && (results + [items[i].resource])[..|results|] == results;
    }

    // A result is missing exactly when the item was not usable, and reading it again found nothing.
    static lemma {:induction false} RecoveredEach(items: seq<Item>, singles: seq<SingleReply>, results: seq<Option<Resource>>)
      requires Recovered(items, singles, results)
      ensures |results| == |items|
      ensures forall i :: 0 <= i < |items| && !items[i].Recoverable() ==> results[i] == items[i].resource
      ensures forall i :: 0 <= i < |items| && UsableOf(items)[i].Some? ==> results[i] == UsableOf(items)[i]
      ensures forall i :: 0 <= i < |items| && results[i].Some? ==>
                results[i] == items[i].resource || Found(results[i].value) in singles
    {
      if items != [] {
        var front, last := items[..|items| - 1], items[|items| - 1];
        var fewer := if last.Recoverable() then singles[..|singles| - 1] else singles;
        RecoveredEach(front, fewer, results[..|results| - 1]);
        forall r | r in fewer ensures r in singles {
        }
      }
    }

    // Usable items are kept; every recoverable one was read again exactly once, in order, and has what that gave.
    static lemma RecoveredKeeps(found: map<Path, Resource>, frontier: seq<Path>, items: seq<Item>, singles: seq<SingleReply>,
                                results: seq<Option<Resource>>)
      requires |items| == |frontier| == |results| && NoRepeats(frontier) == true && Recovered(items, singles, results) == true
      ensures KeepAll(KeepAll(found, frontier, UsableOf(items)), frontier, results) == KeepAll(found, frontier, results)
    {
      RecoveredEach(items, singles, results);
      KeepsOver(found, frontier, UsableOf(items), results);
    }

    static ghost predicate Recovered(items: seq<Item>, singles: seq<SingleReply>, results: seq<Option<Resource>>) {
      if items == [] then singles == [] && results == []
      else
        var front, last := items[..|items| - 1], items[|items| - 1];
        if last.Recoverable() then
          singles != [] && results != [] && Recovered(front, singles[..|singles| - 1], results[..|results| - 1])
          && results[|results| - 1] == (if singles[|singles| - 1].Found? then Some(singles[|singles| - 1].resource) else None)
        else results != [] && Recovered(front, singles, results[..|results| - 1]) && results[|results| - 1] == last.resource
    }

    // Expands the results of one frontier.
    method ExpandAll(frontier: seq<Path>, depths: map<Path, int>, results: seq<Option<Resource>>)
      requires Consistent() && NoRepeats(frontier) == true && |results| == |frontier|
      requires TakenWith(frontier, depths, sent.recorded, work.processed, found) == true
      modifies `work, `log, `rrcEnabled, `softenerProfile, `found
      ensures Consistent() && old(log) <= log && work.processed == old(work.processed)
      ensures found == KeepAll(old(found), frontier, results)
    {
      ghost var known := found;
      assert frontier[0..] == frontier;
      for i := 0 to |frontier|
        invariant Consistent() && old(log) <= log && work.processed == old(work.processed)
        invariant TakenWith(frontier[i..], depths, sent.recorded, work.processed, found) == true
        invariant found == KeepAll(known, frontier[..i], results[..i])
      {
        KeepNext(known, frontier, i, results[..i], results[i]);
        assert results[..i + 1] == results[..i] + [results[i]];
        ExpandOne(frontier, depths, i, results[i]);
      }
      assert frontier[..|frontier|] == frontier && results[..|frontier|] == results;
    }

    // The result of one path, of which nothing was discovered before; the later ones stay as they were taken.
    method ExpandOne(frontier: seq<Path>, depths: map<Path, int>, i: nat, result: Option<Resource>)
      requires Consistent() && i < |frontier| && NoRepeats(frontier) == true
      requires TakenWith(frontier[i..], depths, sent.recorded, work.processed, found) == true
      modifies `work, `log, `rrcEnabled, `softenerProfile, `found
      ensures Consistent() && old(log) <= log && work.processed == old(work.processed)
      ensures found == if result.Some? then old(found)[frontier[i] := result.value] else old(found)
      ensures TakenWith(frontier[i + 1..], depths, sent.recorded, work.processed, found) == true
    {
      HeadTaken(frontier, i, depths, sent.recorded, work.processed, found);
      RestTaken(frontier, i, depths, sent.recorded, work.processed, found, result);
      if result.Some? {
        RecordedIsSite(sent, work.processed, found, log, rules, frontier[i]);
        Expand(frontier[i], depths[frontier[i]], result.value);
      }
    }

    method ScheduleRoots()
      requires Consistent()
      modifies `work, `log
      ensures Consistent() && old(log) <= log && RootsReported(log, rules)
    {
      var roots := rules.StartRoots();
      for i := 0 to |roots|
        invariant work.processed == old(work.processed)
        invariant Valid() && old(log) <= log && |log| == |old(log)| + i
        invariant forall k :: 0 <= k < i ==> log[|old(log)| + k].path == roots[k]
      {
        Schedule(roots[i], 0, Root, None);
      }
      forall r | r in roots ensures Reported(log, r) {
        var k :| 0 <= k < |roots| && roots[k] == r;
        assert log[|old(log)| + k].path == r;
      }
      LongerRequesting(sent, work.processed, found, old(log), log, rules);
    }

    // Requests one frontier and expands what it returned.
    method Request(rank: nat, frontier: seq<Path>) returns (failure: Option<ErrorKind>)
      requires Consistent() && rank < 3 && NoRepeats(frontier) == true && 1 <= |frontier| <= MAX_BULK_PATHS
      requires AllIn(frontier, work.queues[rank]) == true
      requires Stands(wire, sent.requests, found, None) == true
      modifies `work, `log, `sent, `found, `rrcEnabled, `softenerProfile, `wire
      ensures Consistent() && Grows(old(log), log) == true && Stands(wire, sent.requests, found, failure) == true
      ensures sent.requests == old(sent).requests + [frontier]
      ensures |work.processed| == |old(work).processed| + |frontier|
    {
      var depths := Ask(rank, frontier);
      failure := Deliver(frontier, depths);
    }

    method Deliver(frontier: seq<Path>, depths: map<Path, int>) returns (failure: Option<ErrorKind>)
      requires Consistent() && NoRepeats(frontier) == true && Asks(wire, sent.requests, frontier, found) == true
      requires TakenWith(frontier, depths, sent.recorded, work.processed, found) == true && StopsAt(wire, None) == true
      modifies `work, `log, `found, `rrcEnabled, `softenerProfile, `wire
      ensures Consistent() && Grows(old(log), log) == true && work.processed == old(work).processed
      ensures Stands(wire, sent.requests, found, failure) == true
    {
      var results;
      ghost var before, events, items, singles := wire, [], [], [];
      results, failure, events, items, singles := Fetch(frontier);
      AskedOne(before, events, sent.requests, found, frontier, items, singles);
      if failure.None? {
        AskedKept(before, events, sent.requests, found, frontier, items, singles, results);
        ExpandAll(frontier, depths, results);
      }
    }

    // One turn of the loop, on the first queue that is not empty.
    method Advance() returns (stop: Option<Outcome>, ghost rank: nat, ghost frontier: seq<Path>)
      requires Consistent() && |work.processed| < rules.maximumResources
      requires !AllEmpty(work) && Stands(wire, sent.requests, found, None) == true
      modifies this
      ensures Stands(wire, sent.requests, found, ErrorIn(stop)) == true
      ensures Consistent() && Grows(old(log), log) == true && |work.processed| <= rules.maximumResources
      ensures stop.None? ==> |old(work).processed| < |work.processed|
      ensures stop.Some? ==> stop.value == ResourceLimit || stop.value.Raised?
      ensures |paid| <= Max(|old(paid)|, rules.maximumResources)
      ensures stop == Some(ResourceLimit) ==> IsStuck(old(work), old(sent), old(log), old(paid), work, sent, log, paid, rules) == true
      ensures rank < 3 && IsFirst(old(work), rank) == true && IsFrontier(old(work), rules, rank, old(paid), frontier) == true
      ensures stop != Some(ResourceLimit) ==> sent.requests == old(sent).requests + [frontier]
    {
      ghost var budget := paid;
      var first, head := FirstFrontier();
      rank, frontier := first, head;
      if head == [] {
        return Some(ResourceLimit), rank, frontier;
      }
      stop := Proceed(first, head, budget);
    }

    method FirstFrontier() returns (rank: nat, frontier: seq<Path>)
      requires Valid() && !AllEmpty(work) && |work.processed| < rules.maximumResources
      modifies `paid
      ensures rank < 3 && IsFirst(work, rank) == true && IsFrontier(work, rules, rank, old(paid), frontier) == true
      ensures |paid| <= Max(|old(paid)|, rules.maximumResources)
      ensures frontier == [] ==> paid == old(paid) && rules.recovering && |paid| >= rules.maximumResources
    {
      rank := FirstQueue();
      frontier := NextFrontier(rank, work.queues[rank]);
    }

    method Proceed(rank: nat, frontier: seq<Path>, ghost budget: set<Path>) returns (stop: Option<Outcome>)
      requires Consistent() && rank < 3 && IsFirst(work, rank) == true
      requires frontier != [] && IsFrontier(work, rules, rank, budget, frontier) == true && Stands(wire, sent.requests, found, None) == true
      modifies `work, `log, `sent, `found, `rrcEnabled, `softenerProfile, `wire
      ensures Consistent() && Stands(wire, sent.requests, found, ErrorIn(stop)) == true && Grows(old(log), log) == true
      ensures |old(work).processed| < |work.processed| <= rules.maximumResources && (stop.Some? ==> stop.value.Raised?)
      ensures sent.requests == old(sent).requests + [frontier]
    {
      var failure := Request(rank, frontier);
      stop := if failure.Some? then Some(Raised(failure.value)) else None;
    }

    /** The whole run. */
    method Run() returns (outcome: Outcome)
      requires Consistent() && log == [] && sent == Sent([], map[]) && work.processed == {} && found == map[] && wire == []
      requires !rrcEnabled && softenerProfile == rules.softener
      modifies this
      ensures Consistent()
      ensures outcome == BoundsRejected <==> rules.maximumDepth < 0 || rules.maximumResources < 1
      ensures outcome == BoundsRejected ==> log == [] && sent == Sent([], map[])
      ensures |work.processed| <= Max(0, rules.maximumResources)
      ensures |paid| <= Max(|old(paid)|, rules.maximumResources)
      ensures outcome == Complete || outcome == DepthLimit ==> Settled(work.processed, work.limited, log, rules)
      ensures outcome == Complete ==> work.limited == {} && Closed(sent, found, log, rules)
      ensures outcome == DepthLimit ==> work.limited != {}
      ensures outcome == ResourceLimit ==> !AllEmpty(work) && IsSpent()
      ensures Stands(wire, sent.requests, found, ErrorIn(Some(outcome))) == true
    {
      if rules.maximumDepth < 0 || rules.maximumResources < 1 {
        return BoundsRejected;
      }
      Begin();
      assert Stands([], [], map[], None);
      var stop := Exhaust();
      if stop.Some? {
        return stop.value;
      }
      outcome := Finish();
    }

    // Takes turns until nothing waits, or the run has to stop.
    method Exhaust() returns (stop: Option<Outcome>)
      requires Consistent() && RootsReported(log, rules) == true && |work.processed| <= rules.maximumResources
      requires Stands(wire, sent.requests, found, None) == true
      modifies this
      ensures Consistent() && RootsReported(log, rules) == true && |work.processed| <= rules.maximumResources
      ensures |paid| <= Max(|old(paid)|, rules.maximumResources)
      ensures Stands(wire, sent.requests, found, ErrorIn(stop)) == true
      ensures stop.None? ==> AllEmpty(work)
      ensures stop.Some? ==> stop.value.Raised? || (stop.value == ResourceLimit && !AllEmpty(work) && IsSpent())
    {
      while !AllEmpty(work)
        invariant Stands(wire, sent.requests, found, None) == true
        invariant Consistent() && RootsReported(log, rules) == true && |work.processed| <= rules.maximumResources
        invariant |paid| <= Max(|old(paid)|, rules.maximumResources)
        decreases rules.maximumResources - |work.processed|
      {
        if rules.maximumResources - |work.processed| <= 0 {
          return Some(ResourceLimit);
        }
        ghost var before := log;
        ghost var rank, frontier;
        stop, rank, frontier := Advance();
        RootsStay(before, log, rules);
        if stop.Some? {
          return;
        }
      }
      stop := None;
    }

    // Nothing more may be requested: the run has its maximum of paths, or the shared budget is spent.
    ghost predicate IsSpent()
      reads `work, `paid
    {
      |work.processed| == rules.maximumResources || (rules.recovering && |paid| >= rules.maximumResources)
    }

    method Finish() returns (outcome: Outcome)
      requires Consistent() && AllEmpty(work) && RootsReported(log, rules) == true
      ensures outcome == (if work.limited == {} then Complete else DepthLimit) && Settled(work.processed, work.limited, log, rules) == true
      ensures outcome == Complete ==> Closed(sent, found, log, rules) == true
    {
      QueuesSettle(work.queues, work.processed, work.limited, log, rules);
      outcome := if work.limitReached then DepthLimit else Complete;
      if work.limited == {} {
        CompleteIsClosed(sent, work.processed, found, log, rules);
      }
    }

    method Begin()
      requires Consistent() && softenerProfile == rules.softener
      modifies `work, `log, `rrcEnabled
      ensures Consistent() && RootsReported(log, rules) == true
    {
      ScheduleRoots();
      if softenerProfile {
        ghost var before := log;
        ScheduleChildren(SOFTENER_SITE, 1);
        RootsStay(before, log, rules);
        LongerRequesting(sent, work.processed, found, before, log, rules);
      }
    }
  }

  /** Individual reads of these paths, in order, as far as they went. */
  ghost predicate IsReading(events: seq<Exchange>, paths: seq<Path>, singles: seq<SingleReply>) {
    |events| == |singles| <= |paths| && forall i :: 0 <= i < |singles| ==> events[i] == Single(paths[i], singles[i])
  }

  lemma BrokenNext(paths: seq<Path>, items: seq<Item>, i: nat)
    requires i < |paths| && |items| == |paths|
    ensures Broken(paths[..i + 1], items[..i + 1]) ==
              Broken(paths[..i], items[..i]) + if items[i].Recoverable() then [paths[i]] else []
  {
    assert paths[..i + 1][..i] == paths[..i] && items[..i + 1][..i] == items[..i];
  }

  lemma {:induction false} BrokenPrefix(paths: seq<Path>, items: seq<Item>, i: nat)
    requires i <= |paths| && |items| == |paths|
    ensures Broken(paths[..i], items[..i]) <= Broken(paths, items)
  {
    var n := |paths| - 1;
    if i < |paths| {
      BrokenPrefix(paths[..n], items[..n], i);
      assert paths[..n][..i] == paths[..i] && items[..n][..i] == items[..i];
    } else {
      assert paths[..i] == paths && items[..i] == items;
    }
  }

  /** All queues before this one are empty: advertised paths come first, then the catalog, then optional ones. */
  ghost predicate IsFirst(w: Worklist, rank: nat)
    requires |w.queues| == 3 && rank < 3
  {
    forall i :: 0 <= i < rank ==> w.queues[i].order == []
  }

  /** As many paths from the head of the queue as one request and the bounds allow; during recovery those the budget admits. */
  ghost function HeadOf(w: Worklist, rules: Rules, rank: nat, paid: set<Path>): seq<Path>
    requires rank < |w.queues|
  {
    Admitted(FirstOf(w.queues[rank].order, Min(30, rules.maximumResources - |w.processed|)), rules, paid)
  }

  ghost function Admitted(head: seq<Path>, rules: Rules, paid: set<Path>): seq<Path> {
    if rules.recovering then StartupData.Reserved(head, paid, rules.maximumResources) else head
  }

  /** The first `n` elements, or all if they are fewer. */
  ghost function FirstOf(order: seq<Path>, n: int): seq<Path> {
    if order == [] || n <= 0 then [] else [order[0]] + FirstOf(order[1..], n - 1)
  }

  lemma {:induction false} FirstOfIs(order: seq<Path>, n: int, k: nat)
    requires k <= |order| && k == Min(n, |order|)
    ensures FirstOf(order, n) == order[..k]
  {
    if k > 0 {
      FirstOfIs(order[1..], n - 1, k - 1);
      assert order[..k] == [order[0]] + order[1..][..k - 1];
    }
  }

  /** The budget admits nothing more, and nothing has changed. */
  ghost predicate IsStuck(before: Worklist, requests: Sent, reports: seq<Entry>, budget: set<Path>, work: Worklist, sent: Sent,
                          log: seq<Entry>, paid: set<Path>, rules: Rules)
  {
    && work == before && sent == requests && log == reports && paid == budget
    && rules.recovering && |paid| >= rules.maximumResources
  }

  /** What may be requested of a queue: at most one bulk request, within the maximum of the run. */
  ghost predicate IsFrontier(w: Worklist, rules: Rules, rank: nat, paid: set<Path>, frontier: seq<Path>)
    requires rank < |w.queues|
  {
    && frontier == HeadOf(w, rules, rank, paid) && NoRepeats(frontier) && |frontier| <= MAX_BULK_PATHS && AllIn(frontier, w.queues[rank])
    && |w.processed| + |frontier| <= rules.maximumResources
  }

  lemma OneThenMore(a: seq<Entry>, e: Entry, b: seq<Entry>, c: seq<Entry>)
    requires b == a + [e] && b <= c
    ensures c[|a|..] == [e] + c[|b|..]
  {
  }

  lemma TwoParts(a: seq<Entry>, b: seq<Entry>, c: seq<Entry>)
    requires a <= b <= c
    ensures c[|a|..] == b[|a|..] + c[|b|..]
  {
  }

  lemma FollowTrailNext(rules: Rules, children: seq<Path>, i: nat, depth: int, parent: Path, restricted: bool, rrcEnabled: bool,
                        softener: bool)
    requires i < |children|
    ensures var earlier := FollowTrail(rules, children[..i], depth, parent, restricted, rrcEnabled, softener);
            var below := ChildTrail(rules.tables, children[i], depth, earlier.rrcEnabled, softener);
            FollowTrail(rules, children[..i + 1], depth, parent, restricted, rrcEnabled, softener) ==
              if restricted && !Under(children[i], Allowed(rules, earlier.rrcEnabled)) then earlier
              else Trail(earlier.calls + ([Entry(children[i], depth, Reference, Some(parent))] + below.calls), below.rrcEnabled)
  {
    assert children[..i + 1][..i] == children[..i];
  }

  lemma ThreeParts(a: seq<Entry>, b: seq<Entry>, c: seq<Entry>, d: seq<Entry>)
    requires a <= b <= c <= d
    ensures d[|a|..] == b[|a|..] + c[|b|..] + d[|c|..]
  {
  }

  lemma FollowedWithin(r: Resource, p: Path, depth: int, log: seq<Entry>, longer: seq<Entry>, rules: Rules)
    requires log <= longer && Followed(r, p, depth, longer[|log|..], rules)
    ensures Followed(r, p, depth, longer, rules)
  {
    assert longer == log + longer[|log|..] + [];
    forall c | Steady(rules, r, p, c) ensures Logged(longer, c, depth + 1) {
      LoggedWithin(log, longer[|log|..], [], c, depth + 1);
    }
  }

  ghost predicate RootsReported(log: seq<Entry>, rules: Rules) {
    forall r :: r in rules.StartRoots() ==> Reported(log, r)
  }

  ghost predicate Grows(log: seq<Entry>, longer: seq<Entry>) { log <= longer }

  lemma RootsStay(log: seq<Entry>, longer: seq<Entry>, rules: Rules)
    requires RootsReported(log, rules) && log <= longer
    ensures RootsReported(longer, rules)
  {
    forall r | r in rules.StartRoots() ensures Reported(longer, r) {
      ReportedStays(log, longer, r);
    }
  }

  lemma LongerRequesting(sent: Sent, processed: set<Path>, found: map<Path, Resource>,
                         log: seq<Entry>, longer: seq<Entry>, rules: Rules)
    requires Requesting(sent, processed, found, log, rules) && log <= longer
    ensures Requesting(sent, processed, found, longer, rules)
  {
    AllFollowedStays(found, sent.recorded, log, longer, rules);
    RecordedStays(sent.recorded, log, longer, rules.maximumDepth);
  }

  /** Every scheduled path was requested, except exempt ones and those beyond the depth bound. */
  ghost predicate Settled(processed: set<Path>, limited: set<Path>, log: seq<Entry>, rules: Rules) {
    forall p :: Reported(log, p) ==> Exempt(rules, p) || p in processed || p in limited
  }

  lemma QueuesSettle(queues: seq<Queue>, processed: set<Path>, limited: set<Path>, log: seq<Entry>, rules: Rules)
    requires InPlace(queues, processed, limited, log, rules)
    requires queues[0].order == queues[1].order == queues[2].order == []
    ensures Settled(processed, limited, log, rules)
  {
    forall p | Reported(log, p) ensures Exempt(rules, p) || p in processed || p in limited {
      assert PlacedAt(queues, processed, limited, log, rules, p);
      BestIsLeast(log, p);
      var k :| 0 <= k < |log| && log[k].path == p;
      assert BestOf(log, p).Some?;
    }
  }

  lemma ExpandedRequesting(sent: Sent, processed: set<Path>, found: map<Path, Resource>,
                           log: seq<Entry>, longer: seq<Entry>, rules: Rules, p: Path, resource: Resource)
    requires Requesting(sent, processed, found, log, rules) && log <= longer
    requires p in processed && p !in found && p in sent.recorded && Followed(resource, p, sent.recorded[p], longer, rules)
    ensures Requesting(sent, processed, found[p := resource], longer, rules)
  {
    LongerRequesting(sent, processed, found, log, longer, rules);
    var more := found[p := resource];
    forall q | q in more ensures FollowedAt(more, sent.recorded, q, longer, rules) {
      assert q in found ==> FollowedAt(found, sent.recorded, q, longer, rules);
    }
  }

  /** A path was requested, unless discovery never requests it. */
  ghost predicate Covered(sent: Sent, rules: Rules, p: Path) {
    Exempt(rules, p) || p in RequestedIn(sent.requests)
  }

  /**
    Everything scheduled was requested: in particular the roots, and below every discovered resource each reference
    under the initially allowed roots, each entry of the zone list, and each curated child of its path.
   */
  ghost predicate Closed(sent: Sent, found: map<Path, Resource>, log: seq<Entry>, rules: Rules) {
    && (forall k :: 0 <= k < |log| ==> Covered(sent, rules, log[k].path))
    && (forall r :: r in rules.StartRoots() ==> Covered(sent, rules, r))
    && (forall p, c :: p in found && Steady(rules, found[p], p, c) ==> Covered(sent, rules, c))
  }

  lemma CompleteIsClosed(sent: Sent, processed: set<Path>, found: map<Path, Resource>, log: seq<Entry>, rules: Rules)
    requires Requesting(sent, processed, found, log, rules)
    requires RootsReported(log, rules) && Settled(processed, {}, log, rules)
    ensures Closed(sent, found, log, rules)
  {
    forall k | 0 <= k < |log| ensures Covered(sent, rules, log[k].path) {
      assert Reported(log, log[k].path);
    }
    forall p, c | p in found && Steady(rules, found[p], p, c) ensures Covered(sent, rules, c) {
      assert FollowedAt(found, sent.recorded, p, log, rules);
      assert Logged(log, c, sent.recorded[p] + 1);
    }
  }

  // A queued path waits only in the queue of the best source ever reported for it, at the least depth ever reported.
  lemma QueuedAtBest(queues: seq<Queue>, processed: set<Path>, limited: set<Path>, log: seq<Entry>, rules: Rules, i: nat, p: Path)
    requires InPlace(queues, processed, limited, log, rules) && i < 3 && p in queues[i].depths
    ensures p !in processed && p !in limited && (forall j :: 0 <= j < 3 && j != i ==> p !in queues[j].depths)
    ensures Logged(log, p, queues[i].depths[p]) && queues[i].depths[p] <= rules.maximumDepth
    ensures forall k :: 0 <= k < |log| && log[k].path == p ==> queues[i].depths[p] <= log[k].depth && i <= Rank(log[k].source)
    ensures exists k :: 0 <= k < |log| && log[k].path == p && Rank(log[k].source) == i
  {
    assert PlacedAt(queues, processed, limited, log, rules, p);
    BestIsLeast(log, p);
  }

  ghost predicate ReportedAs(log: seq<Entry>, p: Path, sources: set<Source>) {
    exists k :: 0 <= k < |log| && log[k].path == p && log[k].source in sources
  }

  // While an advertised path waits, only advertised ones are requested; while one of the catalog waits, no optional one is.
  lemma AdvertisedFirst(w: Worklist, log: seq<Entry>, rules: Rules, rank: nat, p: Path, q: Path)
    requires InPlace(w.queues, w.processed, w.limited, log, rules) && rank < 3 && IsFirst(w, rank) && p in w.queues[rank].depths
    requires q !in w.processed && q !in w.limited && !Exempt(rules, q)
    ensures ReportedAs(log, q, {Root, Reference}) ==> ReportedAs(log, p, {Root, Reference})
    ensures ReportedAs(log, q, {Root, Reference, Catalog}) ==> ReportedAs(log, p, {Root, Reference, Catalog})
  {
    QueuedAtBest(w.queues, w.processed, w.limited, log, rules, rank, p);
    var k :| 0 <= k < |log| && log[k].path == p && Rank(log[k].source) == rank;
    if Reported(log, q) {
      ReportedIsKept(w.queues, w.processed, w.limited, log, rules, q);
      var i :| 0 <= i < 3 && q in w.queues[i].depths;
      assert i >= rank;
      QueuedAtBest(w.queues, w.processed, w.limited, log, rules, i, q);
    }
  }

  // Every reported path is requested, waiting, depth-limited or exempt; depth-limited ones were only reported too deep.
  lemma ReportedIsKept(queues: seq<Queue>, processed: set<Path>, limited: set<Path>, log: seq<Entry>, rules: Rules, p: Path)
    requires InPlace(queues, processed, limited, log, rules)
    ensures Reported(log, p) && !Exempt(rules, p) ==>
              p in processed || p in limited || exists i :: 0 <= i < 3 && p in queues[i].depths
    ensures p in limited ==> p !in processed && Reported(log, p)
                             && forall k :: 0 <= k < |log| && log[k].path == p ==> log[k].depth > rules.maximumDepth
    ensures p in processed ==> Reported(log, p) && !Exempt(rules, p)
  {
    assert PlacedAt(queues, processed, limited, log, rules, p);
    BestIsLeast(log, p);
  }

  /** A derivation: calls in order, each reporting a child of the one before it, one level deeper. */
  ghost predicate Chain(log: seq<Entry>, c: seq<nat>, rules: Rules, found: map<Path, Resource>) {
    && c != [] && (forall i :: 0 <= i < |c| ==> c[i] < |log|)
    && (IsStart(log[c[0]], rules, found) || IsBelowSoftener(log[c[0]], rules, found))
    && (forall i :: 0 < i < |c| ==> c[i - 1] < c[i] && Follows(log[c[i - 1]], log[c[i]], rules, found))
  }

  ghost predicate Follows(parent: Entry, child: Entry, rules: Rules, found: map<Path, Resource>) {
    child.parent == Some(parent.path) && child.depth == parent.depth + 1
    && Edge(rules, found, parent.path, child.path, child.source)
  }

  // The curated children of the softener site, which itself needs no report.
  ghost predicate IsBelowSoftener(e: Entry, rules: Rules, found: map<Path, Resource>) {
    e.parent == Some(SOFTENER_SITE) && e.depth == 2 && SoftenerKnown(rules, found) && Edge(rules, found, SOFTENER_SITE, e.path, e.source)
  }

  lemma ParentCall(log: seq<Entry>, k: nat, rules: Rules, found: map<Path, Resource>) returns (j: nat)
    requires AllJustified(log, rules, found) && k < |log|
    requires !IsStart(log[k], rules, found) && !IsBelowSoftener(log[k], rules, found)
    ensures j < k && Follows(log[j], log[k], rules, found)
  {
    assert JustifiedAt(log, k, rules, found);
    assert Logged(log[..k], log[k].parent.value, log[k].depth - 1);
    j :| 0 <= j < k && log[..k][j].path == log[k].parent.value && log[..k][j].depth == log[k].depth - 1;
  }

  lemma ChainNext(log: seq<Entry>, c: seq<nat>, k: nat, rules: Rules, found: map<Path, Resource>)
    requires Chain(log, c, rules, found) && k < |log|
    requires c[|c| - 1] < k && Follows(log[c[|c| - 1]], log[k], rules, found)
    ensures Chain(log, c + [k], rules, found)
  {
  }

  // Every call derives from a root by a chain of edges.
  lemma {:induction false} DerivesFromRoot(log: seq<Entry>, k: nat, rules: Rules, found: map<Path, Resource>) returns (c: seq<nat>)
    requires AllJustified(log, rules, found) && k < |log|
    ensures Chain(log, c, rules, found) && c[|c| - 1] == k
    ensures forall i :: 0 <= i < |c| ==> log[c[i]].depth == log[k].depth - (|c| - 1 - i)
    decreases k
  {
    if IsStart(log[k], rules, found) || IsBelowSoftener(log[k], rules, found) {
      c := [k];
    } else {
      var j := ParentCall(log, k, rules, found);
      var earlier := DerivesFromRoot(log, j, rules, found);
      ChainNext(log, earlier, k, rules, found);
      c := earlier + [k];
    }
  }

  // Every requested path derives from a root at its recorded depth, which is within the bound.
  lemma RequestedDerives(sent: Sent, processed: set<Path>, found: map<Path, Resource>, log: seq<Entry>, rules: Rules, p: Path)
    returns (c: seq<nat>)
    requires Requesting(sent, processed, found, log, rules) && AllJustified(log, rules, found) && p in RequestedIn(sent.requests)
    ensures Chain(log, c, rules, found) && log[c[|c| - 1]].path == p && log[c[|c| - 1]].depth == sent.recorded[p]
    ensures forall i :: 0 <= i < |c| ==> log[c[i]].depth <= rules.maximumDepth
  {
    assert RecordedAt(sent.recorded, log, rules.maximumDepth, p);
    var k :| 0 <= k < |log| && log[k].path == p && log[k].depth == sent.recorded[p];
    c := DerivesFromRoot(log, k, rules, found);
  }
}
