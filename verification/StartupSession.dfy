/**
  The recovery slot of one config entry (StartupSession in startup_data.py): one batch at a time, no two
  within a minute, and turns among the gateways that are healthy and have a due read.
  On `P(x) == true` in contracts see Common.dfy.
 */
module StartupSession {
  import opened Common
  import opened StartupData

  type GatewayId = nat

  const DEFAULT_MAXIMUM_DEPTH: int := 8

  /** What decides whether a gateway may claim the slot. */
  datatype Gateway = Gateway(table: map<Path, Read>, order: seq<Path>, catalog: Catalog, requested: set<Path>, maximum: int,
                             healthy: bool)
  {
    ghost predicate Ok() { Indexed(table, order) }

    ghost function Selected(now: int): Selection
      requires Ok()
    {
      assert forall p :: p in order ==> p in Elements(order);
      SelectionOf(table, order, catalog, requested, maximum, now, 1)
    }

    ghost predicate IsEligible(now: int)
      requires Ok()
    {
      healthy && Selected(now).paths != []
    }

    // Looking for a due read leaves out for good what the budget no longer admits.
    ghost function Asked(now: int): Gateway
      requires Ok()
    {
      if healthy then this.(table := AllApplied(table, Selected(now).leftOut, LeaveOut, catalog)) else this
    }
  }

  ghost predicate AllOk(gateways: map<GatewayId, Gateway>) { forall g :: g in gateways ==> gateways[g].Ok() }

  ghost function EligibleIn(gateways: map<GatewayId, Gateway>, now: int): set<GatewayId>
    requires AllOk(gateways)
  {
    set g | g in gateways && gateways[g].IsEligible(now)
  }

  ghost function AllAsked(gateways: map<GatewayId, Gateway>, now: int): map<GatewayId, Gateway>
    requires AllOk(gateways)
  {
    map g | g in gateways :: gateways[g].Asked(now)
  }

  /** The gateways after all but the given ones were asked. */
  ghost function AskedExcept(gateways: map<GatewayId, Gateway>, now: int, todo: set<GatewayId>): map<GatewayId, Gateway>
    requires AllOk(gateways)
  {
    map g | g in gateways :: if g in todo then gateways[g] else gateways[g].Asked(now)
  }

  ghost function EligibleExcept(gateways: map<GatewayId, Gateway>, now: int, todo: set<GatewayId>): set<GatewayId>
    requires AllOk(gateways)
  {
    set g | g in gateways && g !in todo && gateways[g].IsEligible(now)
  }

  lemma NoneAsked(gateways: map<GatewayId, Gateway>, now: int)
    requires AllOk(gateways) == true
    ensures AskedExcept(gateways, now, gateways.Keys) == gateways && EligibleExcept(gateways, now, gateways.Keys) == {}
  {
  }

  lemma FewerLeft(todo: set<GatewayId>, g: GatewayId)
    requires g in todo
    ensures |todo - {g}| < |todo|
  {
  }

  lemma AskedNext(gateways: map<GatewayId, Gateway>, now: int, todo: set<GatewayId>, g: GatewayId)
    requires AllOk(gateways) == true && g in gateways && g in todo
    ensures AskedExcept(gateways, now, todo)[g] == gateways[g]
    ensures AskedExcept(gateways, now, todo - {g}) == AskedExcept(gateways, now, todo)[g := gateways[g].Asked(now)]
    ensures EligibleExcept(gateways, now, todo - {g}) ==
              EligibleExcept(gateways, now, todo) + if gateways[g].IsEligible(now) then {g} else {}
  {
  }

  lemma EveryoneAsked(gateways: map<GatewayId, Gateway>, now: int)
    requires AllOk(gateways) == true
    ensures AskedExcept(gateways, now, {}) == AllAsked(gateways, now) && EligibleExcept(gateways, now, {}) == EligibleIn(gateways, now)
  {
  }

  /** The history of the slot. `eligible` are the gateways that were healthy and had a due read. */
  datatype SlotEvent =
    | Claimed(gateway: GatewayId, at: int, eligible: set<GatewayId>)
    | Released

  ghost predicate ClaimAt(log: seq<SlotEvent>, i: int) { 0 <= i < |log| && log[i].Claimed? }

  ghost predicate ReleasedBetween(log: seq<SlotEvent>, i: int, j: int) {
    exists k :: i < k < j && 0 <= k < |log| && log[k].Released?
  }

  ghost predicate ClaimedBetween(log: seq<SlotEvent>, i: int, j: int, g: GatewayId) {
    exists k :: i < k < j && ClaimAt(log, k) && log[k].gateway == g
  }

  /** Between two claims the slot was released. */
  ghost predicate Exclusive(log: seq<SlotEvent>) {
    forall i, j :: i < j && ClaimAt(log, i) && ClaimAt(log, j) ==> ReleasedBetween(log, i, j)
  }

  /** Two claims are at least one recovery interval apart. */
  ghost predicate Spaced(log: seq<SlotEvent>) {
    forall i, j :: i < j && ClaimAt(log, i) && ClaimAt(log, j) ==> log[j].at >= log[i].at + RECOVERY_INTERVAL_SECONDS
  }

  /** No gateway claims again while another one, eligible at that moment, has not claimed since. */
  ghost predicate Fair(log: seq<SlotEvent>) {
    forall i, j, b ::
      i < j && ClaimAt(log, i) && ClaimAt(log, j) && log[i].gateway == log[j].gateway && Waiting(log[j], b) ==>
        ClaimedBetween(log, i, j, b)
  }

  ghost predicate Waiting(e: SlotEvent, b: GatewayId)
    requires e.Claimed?
  {
    b in e.eligible && b != e.gateway
  }

  ghost predicate LatestClaim(log: seq<SlotEvent>, g: GatewayId, at: int) {
    exists i :: ClaimAt(log, i) && log[i].gateway == g && log[i].at == at
  }

  /** `lastRound` holds the latest claim of each gateway, and nothing else. */
  ghost predicate LastRounds(log: seq<SlotEvent>, lastRound: map<GatewayId, int>) {
    && (forall i :: ClaimAt(log, i) ==> log[i].gateway in lastRound && 0 <= log[i].at <= lastRound[log[i].gateway])
    && (forall g :: g in lastRound ==> LatestClaim(log, g, lastRound[g]))
  }

  ghost predicate SlotInvariant(log: seq<SlotEvent>, lastRound: map<GatewayId, int>, nextRound: int, busy: bool) {
    && Exclusive(log) && Spaced(log) && Fair(log) && LastRounds(log, lastRound) && nextRound >= 0
    && (forall i :: ClaimAt(log, i) ==> log[i].at + RECOVERY_INTERVAL_SECONDS <= nextRound)
    && (!busy ==> forall i :: ClaimAt(log, i) ==> ReleasedBetween(log, i, |log|))
  }

  function LastOf(lastRound: map<GatewayId, int>, g: GatewayId): int { if g in lastRound then lastRound[g] else -1 }

  predicate ComesFirst(lastRound: map<GatewayId, int>, a: GatewayId, b: GatewayId) {
    LastOf(lastRound, a) < LastOf(lastRound, b) || (LastOf(lastRound, a) == LastOf(lastRound, b) && a <= b)
  }

  /** By the recorded rounds it is this gateway's turn: of the eligible ones it claimed longest ago. */
  ghost predicate IsFirst(lastRound: map<GatewayId, int>, g: GatewayId, eligible: set<GatewayId>) {
    g in eligible && forall b :: b in eligible ==> ComesFirst(lastRound, g, b)
  }

  // Appending an event keeps what the log said before.
  lemma LongerLog(log: seq<SlotEvent>, e: SlotEvent)
    ensures forall i :: ClaimAt(log, i) ==> ClaimAt(log + [e], i) && (log + [e])[i] == log[i]
    ensures forall i :: ClaimAt(log + [e], i) && i < |log| ==> ClaimAt(log, i)
    ensures forall i, j :: ReleasedBetween(log, i, j) ==> ReleasedBetween(log + [e], i, j)
    ensures forall i, j, g :: ClaimedBetween(log, i, j, g) ==> ClaimedBetween(log + [e], i, j, g)
    ensures forall g, at :: LatestClaim(log, g, at) ==> LatestClaim(log + [e], g, at)
  {
    var longer := log + [e];
    assert forall i :: 0 <= i < |log| ==> longer[i] == log[i];
    forall i, j | ReleasedBetween(log, i, j) ensures ReleasedBetween(longer, i, j) {
      var k :| i < k < j && 0 <= k < |log| && log[k].Released?;
      assert longer[k].Released?;
    }
    forall i, j, g | ClaimedBetween(log, i, j, g) ensures ClaimedBetween(longer, i, j, g) {
      var k :| i < k < j && ClaimAt(log, k) && log[k].gateway == g;
      assert ClaimAt(longer, k);
    }
    forall g, at | LatestClaim(log, g, at) ensures LatestClaim(longer, g, at) {
      var k :| ClaimAt(log, k) && log[k].gateway == g && log[k].at == at;
      assert ClaimAt(longer, k);
    }
  }

  // A gateway that yields to `g` has claimed after every earlier claim of `g`.
  lemma ServedSince(log: seq<SlotEvent>, lastRound: map<GatewayId, int>, g: GatewayId, i: int, b: GatewayId)
    requires Spaced(log) && LastRounds(log, lastRound)
    requires ClaimAt(log, i) && log[i].gateway == g && b != g && ComesFirst(lastRound, g, b)
    ensures ClaimedBetween(log, i, |log|, b)
  {
    assert LatestClaim(log, b, lastRound[b]);
    var k :| ClaimAt(log, k) && log[k].gateway == b && log[k].at == lastRound[b];
  }

  /** `b` gave way to `g` rightly: it has claimed since `g` last did, or both never have and `g` comes first by name. */
  ghost predicate Precedes(log: seq<SlotEvent>, g: GatewayId, b: GatewayId) {
    if HasClaimed(log, g) then ClaimedSinceAll(log, g, b) else HasClaimed(log, b) || g < b
  }

  ghost predicate HasClaimed(log: seq<SlotEvent>, g: GatewayId) { exists i :: ClaimAt(log, i) && log[i].gateway == g }

  ghost predicate ClaimedSinceAll(log: seq<SlotEvent>, g: GatewayId, b: GatewayId) {
    forall i :: ClaimAt(log, i) && log[i].gateway == g ==> ClaimedBetween(log, i, |log|, b)
  }

  /** The turn, told from the history of the slot alone. */
  ghost predicate HasTurn(log: seq<SlotEvent>, g: GatewayId, eligible: set<GatewayId>) {
    g in eligible && forall b :: b in eligible && b != g ==> Precedes(log, g, b)
  }

  // The recorded rounds give the slot to the gateway whose turn it is by the history.
  lemma TurnExactly(log: seq<SlotEvent>, lastRound: map<GatewayId, int>, g: GatewayId, eligible: set<GatewayId>)
    requires Spaced(log) && LastRounds(log, lastRound)
    ensures IsFirst(lastRound, g, eligible) <==> HasTurn(log, g, eligible)
  {
    forall b | b in eligible && b != g ensures ComesFirst(lastRound, g, b) <==> Precedes(log, g, b) {
      PrecedesExactly(log, lastRound, g, b);
    }
  }

  lemma PrecedesExactly(log: seq<SlotEvent>, lastRound: map<GatewayId, int>, g: GatewayId, b: GatewayId)
    requires Spaced(log) && LastRounds(log, lastRound) && b != g
    ensures ComesFirst(lastRound, g, b) <==> Precedes(log, g, b)
  {
    KnowsClaims(log, lastRound, g);
    KnowsClaims(log, lastRound, b);
    if HasClaimed(log, g) {
      if ComesFirst(lastRound, g, b) {
        forall j | ClaimAt(log, j) && log[j].gateway == g ensures ClaimedBetween(log, j, |log|, b) {
          ServedSince(log, lastRound, g, j, b);
        }
      }
      if ClaimedSinceAll(log, g, b) {
        ClaimedLater(log, lastRound, g, b);
      }
    }
  }

  lemma ClaimedLater(log: seq<SlotEvent>, lastRound: map<GatewayId, int>, g: GatewayId, b: GatewayId)
    requires Spaced(log) && LastRounds(log, lastRound) && g in lastRound && ClaimedSinceAll(log, g, b)
    ensures b in lastRound && lastRound[g] < lastRound[b]
  {
    KnowsClaims(log, lastRound, g);
    var i :| ClaimAt(log, i) && log[i].gateway == g && log[i].at == lastRound[g];
    assert ClaimedBetween(log, i, |log|, b);
    var k :| i < k < |log| && ClaimAt(log, k) && log[k].gateway == b;
    assert log[k].at >= log[i].at + RECOVERY_INTERVAL_SECONDS;
  }

  lemma KnowsClaims(log: seq<SlotEvent>, lastRound: map<GatewayId, int>, g: GatewayId)
    requires LastRounds(log, lastRound)
    ensures HasClaimed(log, g) <==> g in lastRound
    ensures g in lastRound ==> lastRound[g] >= 0 && exists i :: ClaimAt(log, i) && log[i].gateway == g && log[i].at == lastRound[g]
  {
    assert g in lastRound ==> LatestClaim(log, g, lastRound[g]);
  }

  lemma ClaimIsRecorded(log: seq<SlotEvent>, lastRound: map<GatewayId, int>, e: SlotEvent)
    requires LastRounds(log, lastRound) && e.Claimed? && e.at >= 0
    requires forall i :: ClaimAt(log, i) ==> log[i].at <= e.at
    ensures LastRounds(log + [e], lastRound[e.gateway := e.at])
  {
    LongerLog(log, e);
    assert ClaimAt(log + [e], |log|);
    assert LatestClaim(log + [e], e.gateway, e.at);
  }

  // The gateway whose turn it is claims the free slot: everybody waiting has been served since its last claim.
  lemma ClaimIsFair(log: seq<SlotEvent>, lastRound: map<GatewayId, int>, nextRound: int, g: GatewayId, now: int,
                    eligible: set<GatewayId>)
    requires SlotInvariant(log, lastRound, nextRound, false)
    requires now >= nextRound && IsFirst(lastRound, g, eligible)
    ensures SlotInvariant(log + [Claimed(g, now, eligible)], lastRound[g := now], now + RECOVERY_INTERVAL_SECONDS, true)
  {
    var e := Claimed(g, now, eligible);
    ClaimIsRecorded(log, lastRound, e);
    ClaimIsInTurn(log, lastRound, e);
    ClaimIsApart(log, nextRound, e);
  }

  // The slot was free and its interval was over.
  lemma ClaimIsApart(log: seq<SlotEvent>, nextRound: int, e: SlotEvent)
    requires Exclusive(log) && Spaced(log) && e.Claimed? && e.at >= nextRound
    requires forall i :: ClaimAt(log, i) ==> log[i].at + RECOVERY_INTERVAL_SECONDS <= nextRound && ReleasedBetween(log, i, |log|)
    ensures Exclusive(log + [e]) && Spaced(log + [e])
    ensures forall i :: ClaimAt(log + [e], i) ==> (log + [e])[i].at <= e.at
  {
    LongerLog(log, e);
    assert (log + [e])[|log|] == e;
  }

  lemma ClaimIsInTurn(log: seq<SlotEvent>, lastRound: map<GatewayId, int>, e: SlotEvent)
    requires Spaced(log) && Fair(log) && LastRounds(log, lastRound)
    requires e.Claimed? && IsFirst(lastRound, e.gateway, e.eligible)
    ensures Fair(log + [e])
  {
    LongerLog(log, e);
    forall i, b | ClaimAt(log, i) && log[i].gateway == e.gateway && Waiting(e, b)
      ensures ClaimedBetween(log + [e], i, |log|, b)
    {
      ServedSince(log, lastRound, e.gateway, i, b);
    }
  }

  lemma ReleaseIsFair(log: seq<SlotEvent>, lastRound: map<GatewayId, int>, nextRound: int, busy: bool)
    requires SlotInvariant(log, lastRound, nextRound, busy)
    ensures SlotInvariant(log + [Released], lastRound, nextRound, false)
  {
    LongerLog(log, Released);
    ReleaseKeepsTurns(log);
    ReleaseKeepsRounds(log, lastRound);
    assert (log + [Released])[|log|].Released?;
  }

  lemma ReleaseKeepsTurns(log: seq<SlotEvent>)
    requires Exclusive(log) && Spaced(log) && Fair(log)
    ensures Exclusive(log + [Released]) && Spaced(log + [Released]) && Fair(log + [Released])
  {
    LongerLog(log, Released);
  }

  lemma ReleaseKeepsRounds(log: seq<SlotEvent>, lastRound: map<GatewayId, int>)
    requires LastRounds(log, lastRound)
    ensures LastRounds(log + [Released], lastRound)
  {
    LongerLog(log, Released);
  }

  /** The gateways of one config entry and the slot that they share. */
  class StartupSession {
    var gateways: map<GatewayId, StartupGatewayData>
    var lastRound: map<GatewayId, int>
    var setupComplete: bool
    var closed: bool
    var nextRound: int
    var busy: bool
    ghost var log: seq<SlotEvent>

    ghost predicate Valid()
      reads this, gateways.Values
    {
      SlotInvariant(log, lastRound, nextRound, busy) == true && AllValid() == true
    }

    ghost predicate AllValid()
      reads `gateways, gateways.Values
    {
      Apart() && forall g :: g in gateways ==> gateways[g].Valid()
    }

    // No two gateways share their start-up data.
    ghost predicate Apart()
      reads `gateways
    {
      forall a, b :: a in gateways && b in gateways && a != b ==> gateways[a] != gateways[b]
    }

    ghost function Gateways(): map<GatewayId, Gateway>
      reads `gateways, gateways.Values
    {
      map g | g in gateways :: ValueOf(gateways[g])
    }

    static ghost function ValueOf(d: StartupGatewayData): Gateway
      reads d
    {
      Gateway(d.table, d.order, d.catalog, d.requested, d.maximumResources, d.healthy)
    }

    constructor ()
      ensures Valid() && log == [] && lastRound == map[] && nextRound == 0 && !busy && !setupComplete && !closed && gateways == map[]
    {
      lastRound, setupComplete, closed, nextRound, busy, log, gateways := map[], false, false, 0, false, [], map[];
    }

    method MarkSetupComplete()
      modifies `setupComplete
      ensures setupComplete
    {
      setupComplete := true;
    }

    method Close()
      modifies `closed
      ensures closed
    {
      closed := true;
    }

    /** The start-up data of a gateway, which no other gateway shares. */
    method Data(gateway: GatewayId, catalog: Catalog) returns (data: StartupGatewayData)
      requires Valid()
      modifies `gateways
      ensures Valid() && gateway in gateways && data == gateways[gateway]
      ensures if gateway in old(gateways) then gateways == old(gateways) else gateways == old(gateways)[gateway := data] && fresh(data)
      ensures gateway !in old(gateways) ==> !data.healthy && data.table == map[] && data.requested == {} && data.catalog == catalog
    {
      if gateway !in gateways {
        data := new StartupGatewayData(catalog, MAX_STARTUP_PATHS, DEFAULT_MAXIMUM_DEPTH);
        Add(gateway, data);
      } else {
        data := gateways[gateway];
      }
    }

    method Add(gateway: GatewayId, data: StartupGatewayData)
      requires AllValid() == true && data.Valid() && gateway !in gateways && data !in gateways.Values
      modifies `gateways
      ensures AllValid() == true && gateways == old(gateways)[gateway := data]
    {
      gateways := gateways[gateway := data];
      forall g | g in gateways && g != gateway ensures gateways[g] == old(gateways)[g] && gateways[g] != data && gateways[g].Valid() {
        assert gateways[g] in old(gateways).Values;
      }
    }

    /** The gateways that may claim the slot. */
    method Eligible(now: int) returns (eligible: set<GatewayId>)
      requires AllValid() == true
      modifies gateways.Values`table, gateways.Values`history
      ensures AllValid() == true && AllOk(old(Gateways())) == true
      ensures eligible == EligibleIn(old(Gateways()), now) && Gateways() == AllAsked(old(Gateways()), now)
    {
      ghost var before := Gateways();
      AreOk();
      eligible := {};
      var todo := gateways.Keys;
      NoneAsked(before, now);
      while todo != {}
        invariant todo <= gateways.Keys && AllValid() == true && Gateways() == AskedExcept(before, now, todo)
        invariant gateways == old(gateways) && eligible == EligibleExcept(before, now, todo)
        decreases |todo|
      {
        var g :| g in todo;
        eligible := AskNext(before, now, todo, eligible, g);
        FewerLeft(todo, g);
        todo := todo - {g};
      }
      EveryoneAsked(before, now);
    }

    method AskNext(ghost before: map<GatewayId, Gateway>, now: int, ghost todo: set<GatewayId>, earlier: set<GatewayId>, g: GatewayId)
      returns (eligible: set<GatewayId>)
      requires AllValid() == true && AllOk(before) == true && before.Keys == gateways.Keys && g in gateways && g in todo
      requires Gateways() == AskedExcept(before, now, todo) && earlier == EligibleExcept(before, now, todo)
      modifies gateways.Values`table, gateways.Values`history
      ensures AllValid() == true && gateways == old(gateways)
      ensures Gateways() == AskedExcept(before, now, todo - {g}) && eligible == EligibleExcept(before, now, todo - {g})
    {
      AskedNext(before, now, todo, g);
      var due := Ask(g, gateways[g], now);
      eligible := if due then earlier + {g} else earlier;
    }

    lemma AreOk()
      requires AllValid() == true
      ensures AllOk(Gateways()) == true
    {
      forall g | g in gateways ensures ValueOf(gateways[g]).Ok() {
        assert gateways[g].Valid();
      }
    }

    method Ask(ghost g: GatewayId, data: StartupGatewayData, now: int) returns (due: bool)
      requires AllValid() == true && g in gateways && data == gateways[g]
      modifies data`table, data`history
      ensures AllValid() == true && old(ValueOf(data)).Ok()
      ensures Gateways() == old(Gateways())[g := old(ValueOf(data)).Asked(now)]
      ensures due == old(ValueOf(data)).IsEligible(now)
    {
      ghost var before := Gateways();
      due := AskOne(data, now);
      forall h | h in gateways ensures gateways[h].Valid() && (h != g ==> ValueOf(gateways[h]) == before[h]) {
      }
      OnlyOneAsked(before, g);
    }

    lemma OnlyOneAsked(before: map<GatewayId, Gateway>, g: GatewayId)
      requires before.Keys == gateways.Keys && g in gateways
      requires forall h :: h in gateways && h != g ==> ValueOf(gateways[h]) == before[h]
      ensures Gateways() == before[g := ValueOf(gateways[g])]
    {
    }

    static method AskOne(data: StartupGatewayData, now: int) returns (due: bool)
      requires data.Valid()
      modifies data`table, data`history
      ensures data.Valid() && old(ValueOf(data)).Ok()
      ensures ValueOf(data) == old(ValueOf(data)).Asked(now) && due == old(ValueOf(data)).IsEligible(now)
    {
      if !data.healthy {
        return false;
      }
      var paths := data.Due(now, 1);
      due := paths != [];
    }

    ghost predicate Open(now: int)
      reads `setupComplete, `closed, `busy, `nextRound
    {
      setupComplete && !closed && !busy && now >= nextRound
    }

    /** Grants the slot to the gateway whose turn it is, once a minute at most. */
    method Claim(gateway: GatewayId, now: int) returns (granted: bool)
      requires Valid()
      modifies `busy, `lastRound, `nextRound, `log, gateways.Values`table, gateways.Values`history
      ensures Valid() && AllOk(old(Gateways())) == true
      ensures Gateways() == if old(Open(now)) then AllAsked(old(Gateways()), now) else old(Gateways())
      ensures granted <==> old(Open(now)) && HasTurn(old(log), gateway, EligibleIn(old(Gateways()), now)) == true
      ensures granted ==> busy && lastRound == old(lastRound)[gateway := now] && nextRound == now + RECOVERY_INTERVAL_SECONDS
      ensures granted ==> log == old(log) + [Claimed(gateway, now, EligibleIn(old(Gateways()), now))]
      ensures !granted ==> busy == old(busy) && lastRound == old(lastRound) && nextRound == old(nextRound) && log == old(log)
    {
      AreOk();
      if !setupComplete || closed || busy || now < nextRound {
        return false;
      }
      granted := Compete(gateway, now);
    }

    // The slot is free and the minute is over: the eligible gateways compete for it.
    method Compete(gateway: GatewayId, now: int) returns (granted: bool)
      requires Valid() && !busy && now >= nextRound
      modifies `busy, `lastRound, `nextRound, `log, gateways.Values`table, gateways.Values`history
      ensures Valid() && AllOk(old(Gateways())) == true && Gateways() == AllAsked(old(Gateways()), now)
      ensures granted <==> HasTurn(old(log), gateway, EligibleIn(old(Gateways()), now)) == true
      ensures granted ==> busy && lastRound == old(lastRound)[gateway := now] && nextRound == now + RECOVERY_INTERVAL_SECONDS
      ensures granted ==> log == old(log) + [Claimed(gateway, now, EligibleIn(old(Gateways()), now))]
      ensures !granted ==> busy == old(busy) && lastRound == old(lastRound) && nextRound == old(nextRound) && log == old(log)
    {
      var eligible := Eligible(now);
      granted := Award(gateway, now, eligible);
    }

    // The gateways themselves do not change when one of them is given the slot.
    method Award(gateway: GatewayId, now: int, eligible: set<GatewayId>) returns (granted: bool)
      requires SlotInvariant(log, lastRound, nextRound, busy) == true && AllValid() == true && !busy && now >= nextRound
      modifies `busy, `lastRound, `nextRound, `log
      ensures SlotInvariant(log, lastRound, nextRound, busy) == true && AllValid() == true && Gateways() == old(Gateways())
      ensures granted <==> HasTurn(old(log), gateway, eligible) == true
      ensures granted ==> busy && lastRound == old(lastRound)[gateway := now] && nextRound == now + RECOVERY_INTERVAL_SECONDS
      ensures granted ==> log == old(log) + [Claimed(gateway, now, eligible)]
      ensures !granted ==> busy == old(busy) && lastRound == old(lastRound) && nextRound == old(nextRound) && log == old(log)
    {
      granted := Grant(gateway, now, eligible);
    }

    method Grant(gateway: GatewayId, now: int, eligible: set<GatewayId>) returns (granted: bool)
      requires SlotInvariant(log, lastRound, nextRound, busy) == true && !busy && now >= nextRound
      modifies `busy, `lastRound, `nextRound, `log
      ensures SlotInvariant(log, lastRound, nextRound, busy) == true
      ensures granted <==> HasTurn(old(log), gateway, eligible) == true
      ensures granted ==> busy && lastRound == old(lastRound)[gateway := now] && nextRound == now + RECOVERY_INTERVAL_SECONDS
      ensures granted ==> log == old(log) + [Claimed(gateway, now, eligible)]
      ensures !granted ==> busy == old(busy) && lastRound == old(lastRound) && nextRound == old(nextRound) && log == old(log)
    {
      TurnExactly(log, lastRound, gateway, eligible);
      if gateway !in eligible || exists b :: b in eligible && !ComesFirst(lastRound, gateway, b) {
        return false;
      }
      ClaimIsFair(log, lastRound, nextRound, gateway, now, eligible);
      busy, lastRound, nextRound := true, lastRound[gateway := now], now + RECOVERY_INTERVAL_SECONDS;
      log := log + [Claimed(gateway, now, eligible)];
      granted := true;
    }

    /** Ends the claim, whatever became of the batch. */
    method Release()
      requires Valid()
      modifies `busy, `log
      ensures Valid() && !busy && log == old(log) + [Released]
    {
      ReleaseIsFair(log, lastRound, nextRound, busy);
      busy, log := false, log + [Released];
    }
  }
}
