/**
  The fault lifecycle (faults.py): evidence from several sources, absence that must be confirmed twice,
  and an active baseline that survives a restart. Faults arrive already parsed; a source key is the path.
  On `P(x) == true` in contracts see Common.dfy.
 */
module Faults {
  import opened Common

  const CONFIRMATIONS: nat := 2

  datatype Fingerprint = Fingerprint(text: string)

  datatype Severity = Info | Maintenance | Warning | Unknown | Serious | Critical

  function SeverityRank(s: Severity): nat {
    match s
    case Info => 0
    case Maintenance => 1
    case Warning => 2
    case Unknown => 3
    case Serious => 4
    case Critical => 5
  }

  datatype TimeSource = Device | Cloud | Observed | UnknownSource

  datatype Component = System | HeatSource | DeviceComponent

  datatype Fault = Fault(fingerprint: Fingerprint, code: Option<string>, severity: Severity, component: Option<Component>,
                         componentId: Option<string>, occurredAt: Option<int>, firstSeen: int, lastSeen: int,
                         timeSource: TimeSource, sources: set<Path>)

  /** What a cycle has of one resource; only an `active` path gives evidence of current faults. */
  datatype Reading = Reading(path: Path, active: bool, successful: bool, faults: seq<Fault>, invalid: nat) {
    predicate Counts() { active && successful }
  }

  datatype EventType = Appeared | Resolved

  datatype Event = Event(kind: EventType, fault: Fault)

  // ----- One cycle's evidence -----

  /** The same incident reported by two resources: the more severe report, the better component, both sources. */
  function Merge(first: Fault, second: Fault): Fault {
    var preferred := if SeverityRank(first.severity) >= SeverityRank(second.severity) then first else second;
    preferred.(component := if first.component.Some? && first.component != Some(System) then first.component else second.component,
               componentId := if first.componentId.Some? then first.componentId else second.componentId,
               sources := first.sources + second.sources)
  }

  function Add(parsed: map<Fingerprint, Fault>, f: Fault): map<Fingerprint, Fault> {
    parsed[f.fingerprint := if f.fingerprint in parsed then Merge(parsed[f.fingerprint], f) else f]
  }

  function AddAll(parsed: map<Fingerprint, Fault>, faults: seq<Fault>): map<Fingerprint, Fault> {
    if faults == [] then parsed else Add(AddAll(parsed, faults[..|faults| - 1]), faults[|faults| - 1])
  }

  /** The faults that the authoritative readings of a cycle report. */
  function Parsed(readings: seq<Reading>): map<Fingerprint, Fault> {
    if readings == [] then map[]
    else
      var earlier, r := Parsed(readings[..|readings| - 1]), readings[|readings| - 1];
      if r.Counts() then AddAll(earlier, r.faults) else earlier
  }

  /** The authoritative sources that a cycle read. */
  function Read(readings: seq<Reading>): set<Path> {
    if readings == [] then {}
    else Read(readings[..|readings| - 1]) + if readings[|readings| - 1].Counts() then {readings[|readings| - 1].path} else {}
  }

  function Invalid(readings: seq<Reading>): nat {
    if readings == [] then 0
    else Invalid(readings[..|readings| - 1]) + if readings[|readings| - 1].Counts() then readings[|readings| - 1].invalid else 0
  }

  ghost predicate Reports(r: Reading, fp: Fingerprint) {
    r.Counts() && exists i :: 0 <= i < |r.faults| && r.faults[i].fingerprint == fp
  }

  // A fingerprint is parsed exactly when some authoritative reading reports it.
  lemma {:induction false} ParsedIsReported(readings: seq<Reading>, fp: Fingerprint)
    ensures fp in Parsed(readings) <==> exists k :: 0 <= k < |readings| && Reports(readings[k], fp)
    ensures fp in Parsed(readings) ==> Parsed(readings)[fp].fingerprint == fp
  {
    if readings != [] {
      var front, last := readings[..|readings| - 1], readings[|readings| - 1];
      ParsedIsReported(front, fp);
      if last.Counts() {
        AddedIsReported(Parsed(front), last.faults, fp);
      }
      if fp in Parsed(front) {
        var k :| 0 <= k < |front| && Reports(front[k], fp);
        assert Reports(readings[k], fp);
      }
    }
  }

  lemma {:induction false} AddedIsReported(parsed: map<Fingerprint, Fault>, faults: seq<Fault>, fp: Fingerprint)
    requires fp in parsed ==> parsed[fp].fingerprint == fp
    ensures fp in AddAll(parsed, faults) <==> fp in parsed || exists i :: 0 <= i < |faults| && faults[i].fingerprint == fp
    ensures fp in AddAll(parsed, faults) ==> AddAll(parsed, faults)[fp].fingerprint == fp
  {
    if faults != [] {
      AddedIsReported(parsed, faults[..|faults| - 1], fp);
    }
  }

  predicate Concrete(c: Option<Component>) { c.Some? && c != Some(System) }

  // Merging keeps the identity, never weakens the severity and forgets no source.
  lemma MergeKeeps(first: Fault, second: Fault)
    requires first.fingerprint == second.fingerprint
    ensures var m := Merge(first, second);
            && m.fingerprint == first.fingerprint && m.sources == first.sources + second.sources
            && SeverityRank(m.severity) == Max(SeverityRank(first.severity), SeverityRank(second.severity))
            && (Concrete(m.component) <==> Concrete(first.component) || Concrete(second.component))
            && (m.componentId.None? <==> first.componentId.None? && second.componentId.None?)
  {
  }

  // The severities in their order; unknown counts as more than a warning and less than a fault.
  lemma SeverityOrder()
    ensures SeverityRank(Info) < SeverityRank(Maintenance) < SeverityRank(Warning) < SeverityRank(Unknown)
    ensures SeverityRank(Unknown) < SeverityRank(Serious) < SeverityRank(Critical)
  {
  }

  /** Everything that a merge takes from one of the two reports as a whole. */
  ghost predicate SameReport(a: Fault, b: Fault) {
    && a.fingerprint == b.fingerprint && a.code == b.code && a.severity == b.severity && a.occurredAt == b.occurredAt
    && a.firstSeen == b.firstSeen && a.lastSeen == b.lastSeen && a.timeSource == b.timeSource
  }

  // A merge is the more severe report, the first one of two equally severe ones, with the first concrete component.
  lemma MergeTakes(first: Fault, second: Fault)
    ensures var m := Merge(first, second);
            && (if SeverityRank(second.severity) > SeverityRank(first.severity) then SameReport(m, second) else SameReport(m, first))
            && m.component == (if Concrete(first.component) then first.component else second.component)
            && m.componentId == (if first.componentId.Some? then first.componentId else second.componentId)
            && forall p :: p in m.sources <==> p in first.sources || p in second.sources
  {
  }

  /** All reports of the authoritative readings, in order. */
  ghost function ReportsOf(readings: seq<Reading>): seq<Fault> {
    if readings == [] then []
    else
      var last := readings[|readings| - 1];
      ReportsOf(readings[..|readings| - 1]) + if last.active && last.successful then last.faults else []
  }

  /** `f` is the report at `m`, the first of the most severe ones of this fault, with the sources of all of them. */
  ghost predicate IsWorst(f: Fault, reports: seq<Fault>, fp: Fingerprint, m: int) {
    && 0 <= m < |reports| && reports[m].fingerprint == fp && SameReport(f, reports[m])
    && (forall j :: 0 <= j < |reports| && reports[j].fingerprint == fp ==>
          SeverityRank(reports[j].severity) <= SeverityRank(f.severity) && reports[j].sources <= f.sources
          && (j < m ==> SeverityRank(reports[j].severity) < SeverityRank(f.severity)))
    && (forall p :: p in f.sources ==> FromSome(reports, fp, p))
  }

  ghost predicate FromSome(reports: seq<Fault>, fp: Fingerprint, p: Path) {
    exists j :: 0 <= j < |reports| && reports[j].fingerprint == fp && p in reports[j].sources
  }

  lemma {:induction false} AddedJoin(parsed: map<Fingerprint, Fault>, a: seq<Fault>, b: seq<Fault>)
    ensures AddAll(parsed, a + b) == AddAll(AddAll(parsed, a), b)
  {
    if b == [] {
      assert a + b == a;
    } else {
      AddedJoin(parsed, a, b[..|b| - 1]);
      assert (a + b)[..|a + b| - 1] == a + b[..|b| - 1];
    }
  }

  lemma {:induction false} ParsedReports(readings: seq<Reading>)
    ensures Parsed(readings) == AddAll(map[], ReportsOf(readings))
  {
    if readings != [] {
      var front, last := readings[..|readings| - 1], readings[|readings| - 1];
      ParsedReports(front);
      AddedJoin(map[], ReportsOf(front), last.faults);
      assert ReportsOf(front) + [] == ReportsOf(front);
    }
  }

  lemma WorstNext(f: Fault, reports: seq<Fault>, fp: Fingerprint, m: int, next: Fault)
    requires IsWorst(f, reports, fp, m)
    ensures next.fingerprint != fp ==> IsWorst(f, reports + [next], fp, m)
    ensures next.fingerprint == fp ==>
              IsWorst(Merge(f, next), reports + [next], fp, if SeverityRank(next.severity) > SeverityRank(f.severity) then |reports| else m)
  {
    var longer := reports + [next];
    assert forall j :: 0 <= j < |reports| ==> longer[j] == reports[j];
    forall p | FromSome(reports, fp, p) ensures FromSome(longer, fp, p) {
      var j :| 0 <= j < |reports| && reports[j].fingerprint == fp && p in reports[j].sources;
      assert longer[j] == reports[j];
    }
    if next.fingerprint == fp {
      forall p | p in next.sources ensures FromSome(longer, fp, p) {
        assert longer[|reports|] == next;
      }
    }
  }

  lemma {:induction false} WorstOfAll(reports: seq<Fault>, fp: Fingerprint) returns (m: int)
    requires fp in AddAll(map[], reports)
    ensures IsWorst(AddAll(map[], reports)[fp], reports, fp, m) == true
  {
    var front, last := reports[..|reports| - 1], reports[|reports| - 1];
    assert reports == front + [last];
    if fp in AddAll(map[], front) {
      m := WorstOfAll(front, fp);
      WorstNext(AddAll(map[], front)[fp], front, fp, m, last);
      if last.fingerprint == fp && SeverityRank(last.severity) > SeverityRank(AddAll(map[], front)[fp].severity) {
        m := |front|;
      }
    } else {
      NoneBefore(front, fp);
      m := |front|;
    }
  }

  lemma NoneBefore(reports: seq<Fault>, fp: Fingerprint)
    requires fp !in AddAll(map[], reports)
    ensures forall j :: 0 <= j < |reports| ==> reports[j].fingerprint != fp
  {
    AddedIsReported(map[], reports, fp);
  }

  // What a cycle takes from several reports of one fault: the first of the most severe ones, with the sources of all.
  lemma ParsedIsWorst(readings: seq<Reading>, fp: Fingerprint) returns (m: int)
    requires fp in Parsed(readings)
    ensures IsWorst(Parsed(readings)[fp], ReportsOf(readings), fp, m)
  {
    ParsedReports(readings);
    m := WorstOfAll(ReportsOf(readings), fp);
  }

  // ----- The tracker as a value -----

  /** The stored list of unverified faults: it may be missing, and the value under its key need not be a list. */
  datatype Unverified = Missing | Named(faults: set<Fingerprint>) | NoList

  /** What is stored. A store of an older version names no required source. */
  datatype Store = Store(active: map<Fingerprint, Fault>, required: set<Path>, unverified: Unverified)

  /** `store` is the baseline written last; `pending` says that a later write was ordered and did not happen yet. */
  datatype Tracker = Tracker(active: map<Fingerprint, Fault>, absence: map<Fingerprint, nat>, required: set<Path>,
                             unverified: set<Fingerprint>, valid: bool, initialized: bool, store: Option<Store>, pending: bool)

  const FRESH_TRACKER := Tracker(map[], map[], {}, {}, false, false, None, false)

  /** No active fault is doubted: the current evidence is complete and counts none of them as absent. */
  predicate Confirmed(t: Tracker) { t.valid && t.absence == map[] }

  /** A cycle is complete when every source ever required was read, nothing was invalid and nothing restored is unverified. */
  predicate Complete(t: Tracker, readings: seq<Reading>) {
    && t.required + Read(readings) != {} && t.required <= Read(readings)
    && Invalid(readings) == 0 && t.unverified <= Parsed(readings).Keys
  }

  ghost predicate WasRead(readings: seq<Reading>, p: Path) {
    exists i :: 0 <= i < |readings| && readings[i].path == p && readings[i].active && readings[i].successful
  }

  lemma {:induction false} ReadExactly(readings: seq<Reading>, p: Path)
    ensures p in Read(readings) <==> WasRead(readings, p)
  {
    if readings != [] {
      var front, last := readings[..|readings| - 1], readings[|readings| - 1];
      ReadExactly(front, p);
      if WasRead(front, p) {
        var i :| 0 <= i < |front| && front[i].path == p && front[i].active && front[i].successful;
        assert readings[i] == front[i];
      }
      if WasRead(readings, p) {
        var i :| 0 <= i < |readings| && readings[i].path == p && readings[i].active && readings[i].successful;
        assert i < |front| ==> front[i] == readings[i];
      }
    }
  }

  ghost predicate NoneInvalid(readings: seq<Reading>) {
    forall i :: 0 <= i < |readings| && readings[i].active && readings[i].successful ==> readings[i].invalid == 0
  }

  lemma {:induction false} InvalidExactly(readings: seq<Reading>)
    ensures Invalid(readings) == 0 <==> NoneInvalid(readings)
  {
    if readings != [] {
      var front := readings[..|readings| - 1];
      InvalidExactly(front);
      assert forall i :: 0 <= i < |front| ==> front[i] == readings[i];
    }
  }

  // What makes a cycle complete, in terms of its readings.
  lemma CompleteExactly(t: Tracker, readings: seq<Reading>)
    ensures Complete(t, readings) <==>
              && (t.required != {} || exists p :: WasRead(readings, p))
              && (forall p :: p in t.required ==> WasRead(readings, p)) && NoneInvalid(readings)
              && forall fp :: fp in t.unverified ==> exists k :: 0 <= k < |readings| && Reports(readings[k], fp)
  {
    InvalidExactly(readings);
    forall p ensures p in Read(readings) <==> WasRead(readings, p) {
      ReadExactly(readings, p);
    }
    forall fp ensures fp in Parsed(readings) <==> exists k :: 0 <= k < |readings| && Reports(readings[k], fp) {
      ParsedIsReported(readings, fp);
    }
    if t.required == {} && exists p :: WasRead(readings, p) {
      var p :| WasRead(readings, p);
      assert p in t.required + Read(readings);
    }
  }

  /** A fault observed again keeps its first sighting and a known time of occurrence. */
  function Again(previous: Fault, f: Fault): Fault {
    f.(firstSeen := previous.firstSeen,
       occurredAt := if previous.occurredAt.Some? then previous.occurredAt else f.occurredAt,
       timeSource := if previous.occurredAt.Some? then previous.timeSource else f.timeSource,
       sources := previous.sources + f.sources)
  }

  function Count(absence: map<Fingerprint, nat>, fp: Fingerprint): nat { if fp in absence then absence[fp] else 0 }

  /** The faults that a complete cycle finds absent for the second time. */
  function Gone(t: Tracker, readings: seq<Reading>): set<Fingerprint> {
    if Complete(t, readings) && t.initialized
    then set fp | fp in t.active && fp !in Parsed(readings) && Count(t.absence, fp) + 1 >= CONFIRMATIONS
    else {}
  }

  function New(t: Tracker, readings: seq<Reading>): set<Fingerprint> {
    if t.initialized then Parsed(readings).Keys - t.active.Keys else {}
  }

  function ActiveAfter(t: Tracker, readings: seq<Reading>): map<Fingerprint, Fault> {
    var parsed, gone := Parsed(readings), Gone(t, readings);
    if !t.initialized then parsed
    else map fp | fp in t.active.Keys + parsed.Keys && fp !in gone ::
           if fp !in parsed then t.active[fp] else if fp in t.active then Again(t.active[fp], parsed[fp]) else parsed[fp]
  }

  function AbsenceAfter(t: Tracker, readings: seq<Reading>): map<Fingerprint, nat> {
    var parsed, gone, complete := Parsed(readings), Gone(t, readings), Complete(t, readings);
    var kept := if Read(readings) != {} && !complete then map[] else t.absence;
    if !t.initialized then kept
    else if complete then
      map fp | fp in kept.Keys + t.active.Keys && fp !in parsed && fp !in gone ::
        if fp in t.active then Count(kept, fp) + 1 else Count(kept, fp)
    else kept - parsed.Keys
  }

  /** A cycle orders a write when it is the first one, or changes a source, an unverified fault or the active faults. */
  predicate Saves(t: Tracker, readings: seq<Reading>) {
    || !t.initialized || t.required + Read(readings) != t.required || t.unverified - Parsed(readings).Keys != t.unverified
    || New(t, readings) != {} || Gone(t, readings) != {}
  }

  // A cycle orders a write exactly if it is the first one or changes what has to survive.
  lemma SavesExactly(t: Tracker, readings: seq<Reading>)
    requires t.unverified <= t.active.Keys
    ensures Saves(t, readings) <==>
              var n := Processed(t, readings);
              !t.initialized || n.required != t.required || n.unverified != t.unverified || n.active.Keys != t.active.Keys
  {
    if t.initialized {
      var n := Processed(t, readings);
      assert n.active.Keys == t.active.Keys + New(t, readings) - Gone(t, readings);
      if New(t, readings) != {} {
        var fp :| fp in New(t, readings);
        assert fp in n.active.Keys && fp !in t.active.Keys;
      }
      if Gone(t, readings) != {} {
        var fp :| fp in Gone(t, readings);
        assert fp !in n.active.Keys && fp in t.active.Keys;
      }
    }
  }

  // What one cycle leaves of each fault: the new report of a fault seen again, with its first sighting, a known time and
  // all sources; the report of a new one; and a fault not reported as it was.
  lemma CycleRecords(t: Tracker, readings: seq<Reading>, fp: Fingerprint)
    requires t.initialized && fp in ActiveAfter(t, readings)
    ensures var n, parsed := ActiveAfter(t, readings)[fp], Parsed(readings);
            if fp !in parsed then fp in t.active && n == t.active[fp]
            else if fp !in t.active then n == parsed[fp]
            else SeenAgain(t.active[fp], parsed[fp], n)
  {
  }

  ghost predicate SeenAgain(before: Fault, report: Fault, after: Fault) {
    && SameContents(report, after) && after.componentId == report.componentId && after.firstSeen == before.firstSeen
    && (forall p :: p in after.sources <==> p in before.sources || p in report.sources)
    && (if before.occurredAt.Some? then after.occurredAt == before.occurredAt && after.timeSource == before.timeSource
        else after.occurredAt == report.occurredAt && after.timeSource == report.timeSource)
  }

  /** What is shown of a fault beyond its times. */
  ghost predicate SameContents(a: Fault, b: Fault) {
    a.fingerprint == b.fingerprint && a.code == b.code && a.severity == b.severity && a.component == b.component && a.lastSeen == b.lastSeen
  }

  // What is written of a fault: everything but the identifier of its component and its sources.
  lemma StoredContents(t: Tracker, fp: Fingerprint)
    ensures var saved := Serialized(t);
            && saved.active.Keys == t.active.Keys && saved.required == t.required && saved.unverified == Named(t.unverified)
            && (fp in t.active ==>
                  var f := saved.active[fp];
                  && SameContents(f, t.active[fp]) && SameReport(f, t.active[fp]) && f.componentId == None && f.sources == {})
  {
  }

  function Kept(f: Fault): Fault { f.(componentId := None, sources := {}) }

  function Baseline(active: map<Fingerprint, Fault>, required: set<Path>, unverified: set<Fingerprint>): Store {
    Store(map fp | fp in active :: Kept(active[fp]), required, Named(unverified))
  }

  function Processed(t: Tracker, readings: seq<Reading>): Tracker {
    Tracker(ActiveAfter(t, readings), AbsenceAfter(t, readings), t.required + Read(readings),
            t.unverified - Parsed(readings).Keys, if Read(readings) != {} then Complete(t, readings) else t.valid, true,
            t.store, t.pending || Saves(t, readings))
  }

  function Doubted(t: Tracker): Tracker { t.(absence := map[], valid := false) }

  // ----- Storage -----

  function Serialized(t: Tracker): Store { Baseline(t.active, t.required, t.unverified) }

  function Flushed(t: Tracker): Tracker { t.(store := Some(Serialized(t)), pending := false) }

  /** A delayed write stores the state of the moment at which it happens. */
  function Written(t: Tracker): Tracker { if t.pending then Flushed(t) else t }

  /** The stored faults that must be seen again before anything resolves: all of them where the store gives no evidence. */
  function Restored(s: Store): set<Fingerprint> {
    if s.required == {} || s.unverified.NoList? then s.active.Keys
    else if s.unverified.Missing? then {}
    else s.unverified.faults * s.active.Keys
  }

  function Loaded(store: Option<Store>): Tracker {
    if store.None? then FRESH_TRACKER
    else Tracker(store.value.active, map[], store.value.required, Restored(store.value), false, true, store, false)
  }

  function Restarted(t: Tracker): Tracker { Loaded(t.store) }

  // ----- Runs -----

  /**
    Everything that can happen to a tracker. Failures and deferrals are those of authoritative sources. A write may
    come any time after it was ordered, and a restart may come before it.
   */
  datatype Op = Process(readings: seq<Reading>) | Doubt | Flush | Write | Restart {
    predicate Saving() { Flush? || Write? }
  }

  function Step(t: Tracker, op: Op): Tracker {
    match op
    case Process(readings) => Processed(t, readings)
    case Doubt => Doubted(t)
    case Flush => Flushed(t)
    case Write => Written(t)
    case Restart => Restarted(t)
  }

  function Run(t: Tracker, ops: seq<Op>): Tracker {
    if ops == [] then t else Step(Run(t, ops[..|ops| - 1]), ops[|ops| - 1])
  }

  function AppearedAt(t: Tracker, op: Op): set<Fingerprint> { if op.Process? then New(t, op.readings) else {} }

  function ResolvedAt(t: Tracker, op: Op): set<Fingerprint> { if op.Process? then Gone(t, op.readings) else {} }

  ghost predicate Sound(t: Tracker) {
    && t.unverified <= t.active.Keys && t.absence.Keys <= t.active.Keys
    && (forall fp :: fp in t.absence ==> t.absence[fp] == 1)
    && (t.required == {} ==> t.unverified == t.active.Keys)
    && (!t.initialized ==> t == FRESH_TRACKER.(store := t.store) && (t.store.Some? ==> t.store == Some(Serialized(t))))
    && (t.initialized && !t.pending ==> Backed(t))
  }

  /** What is written is the same incidents, of which a time of occurrence may be missing. */
  ghost predicate Backed(t: Tracker) {
    && t.store.Some? && Loaded(t.store).active.Keys == t.active.Keys
    && Loaded(t.store).required == t.required && Loaded(t.store).unverified == t.unverified
    && forall fp :: fp in t.active ==> SameIncident(t.store.value.active[fp], t.active[fp])
  }

  ghost predicate SameIncident(saved: Fault, f: Fault) {
    saved.firstSeen == f.firstSeen && (saved.occurredAt.Some? ==> saved.occurredAt == f.occurredAt && saved.timeSource == f.timeSource)
  }

  lemma StepSound(t: Tracker, op: Op)
    requires Sound(t)
    ensures Sound(Step(t, op))
  {
    if op.Process? {
      ProcessedSound(t, op.readings);
    } else if op.Saving() {
      FlushedSound(t);
    }
  }

  lemma FlushedSound(t: Tracker)
    requires Sound(t)
    ensures Sound(Flushed(t))
  {
    SavedIsBacked(t.active, t.required, t.unverified);
  }

  lemma ProcessedSound(t: Tracker, readings: seq<Reading>)
    requires Sound(t)
    ensures Sound(Processed(t, readings))
  {
    ParsedNeedsReading(readings);
    ProcessedCounts(t, readings);
    if !t.pending && !Saves(t, readings) {
      UnsavedIsBacked(t, readings);
    }
  }

  lemma ProcessedCounts(t: Tracker, readings: seq<Reading>)
    requires Sound(t)
    ensures var n := Processed(t, readings);
            && n.unverified <= n.active.Keys && n.absence.Keys <= n.active.Keys
            && forall fp :: fp in n.absence ==> n.absence[fp] == 1
    ensures Read(readings) == {} && Parsed(readings).Keys == {} ==> Processed(t, readings).active.Keys == t.active.Keys
  {
  }

  // A baseline just written says everything about the incidents.
  lemma SavedIsBacked(active: map<Fingerprint, Fault>, required: set<Path>, unverified: set<Fingerprint>)
    requires unverified <= active.Keys && (required == {} ==> unverified == active.Keys)
    ensures var r := Loaded(Some(Baseline(active, required, unverified)));
            r.active.Keys == active.Keys && r.required == required && r.unverified == unverified
            && forall fp :: fp in active ==> SameIncident(r.active[fp], active[fp])
  {
  }

  // A cycle that orders no write leaves the incidents as they were written.
  lemma UnsavedIsBacked(t: Tracker, readings: seq<Reading>)
    requires Sound(t) && !t.pending && !Saves(t, readings)
    ensures Backed(Processed(t, readings))
  {
    assert New(t, readings) == {} && Gone(t, readings) == {};
    forall fp | fp in Parsed(readings) ensures fp in t.active {
      assert fp !in New(t, readings);
    }
  }

  lemma {:induction false} ParsedNeedsReading(readings: seq<Reading>)
    ensures Parsed(readings).Keys != {} ==> Read(readings) != {}
  {
    if readings != [] {
      var front, last := readings[..|readings| - 1], readings[|readings| - 1];
      ParsedNeedsReading(front);
      assert last.Counts() ==> last.path in Read(readings);
    }
  }

  lemma {:induction false} RunSound(t: Tracker, ops: seq<Op>)
    requires Sound(t)
    ensures Sound(Run(t, ops)) == true
  {
    if ops != [] {
      RunSound(t, ops[..|ops| - 1]);
      StepSound(Run(t, ops[..|ops| - 1]), ops[|ops| - 1]);
    }
  }

  /** What the latest cycle that read an authoritative source showed, if it was complete and nothing cast doubt since. */
  ghost function Evidence(t: Tracker, ops: seq<Op>): Option<set<Fingerprint>> {
    if ops == [] then None
    else
      var front, op := ops[..|ops| - 1], ops[|ops| - 1];
      if op.Saving() then Evidence(t, front)
      else if !op.Process? then None
      else if Read(op.readings) == {} then Evidence(t, front)
      else if Complete(Run(t, front), op.readings) then Some(Parsed(op.readings).Keys) else None
  }

  /** A tracker without current evidence, as after construction or loading. */
  ghost predicate Starts(t: Tracker) { Sound(t) && !t.valid && t.absence == map[] }

  ghost predicate Agrees(s: Tracker, e: Option<set<Fingerprint>>) {
    && (s.valid <==> e.Some?)
    && (e.None? ==> s.absence == map[])
    && (e.Some? ==> e.value <= s.active.Keys && s.absence.Keys == s.active.Keys - e.value)
  }

  lemma EvidenceStep(s: Tracker, readings: seq<Reading>, e: Option<set<Fingerprint>>)
    requires Sound(s) && Agrees(s, e)
    ensures Agrees(Processed(s, readings),
                   if Read(readings) == {} then e
                   else if Complete(s, readings) then Some(Parsed(readings).Keys) else None)
  {
    if Read(readings) == {} {
      SilentStep(s, readings, e);
    } else if Complete(s, readings) {
      CompleteStep(s, readings, e);
    }
  }

  lemma SilentStep(s: Tracker, readings: seq<Reading>, e: Option<set<Fingerprint>>)
    requires Sound(s) && Agrees(s, e) && Read(readings) == {}
    ensures Agrees(Processed(s, readings), e)
  {
    ParsedNeedsReading(readings);
    assert Processed(s, readings).active.Keys == s.active.Keys;
  }

  lemma CompleteStep(s: Tracker, readings: seq<Reading>, e: Option<set<Fingerprint>>)
    requires Sound(s) && Agrees(s, e) && Read(readings) != {} && Complete(s, readings)
    ensures Agrees(Processed(s, readings), Some(Parsed(readings).Keys))
  {
    var n := Processed(s, readings);
    assert n.absence.Keys == n.active.Keys - Parsed(readings).Keys;
  }

  // The state carries exactly the evidence of the history.
  lemma {:induction false} EvidenceDecides(t: Tracker, ops: seq<Op>)
    requires Starts(t)
    ensures Agrees(Run(t, ops), Evidence(t, ops))
  {
    if ops != [] {
      var front, op := ops[..|ops| - 1], ops[|ops| - 1];
      EvidenceDecides(t, front);
      RunSound(t, front);
      if op.Process? {
        EvidenceStep(Run(t, front), op.readings, Evidence(t, front));
      }
    }
  }

  // The all-clear is exact: the latest cycle that read a source was complete, nothing cast doubt since, and the
  // active faults are the ones it reported.
  lemma ConfirmedIsExact(t: Tracker, ops: seq<Op>)
    requires Starts(t)
    ensures Confirmed(Run(t, ops)) <==> Evidence(t, ops) == Some(Run(t, ops).active.Keys)
  {
    EvidenceDecides(t, ops);
    var s, e := Run(t, ops), Evidence(t, ops);
    if e.Some? && s.absence == map[] {
      forall fp | fp in s.active.Keys ensures fp in e.value {
        assert fp !in s.active.Keys - e.value;
      }
      assert e.value == s.active.Keys;
    }
    if e == Some(s.active.Keys) {
      assert s.absence.Keys == {};
    }
  }

  /** The `m`-th operation was a complete cycle reporting exactly `reported`, and nothing until `n` disturbed it. */
  ghost predicate Stands(t: Tracker, ops: seq<Op>, m: nat, n: nat, reported: set<Fingerprint>) {
    && m < n <= |ops| && ops[m].Process?
    && Read(ops[m].readings) != {} && Complete(Run(t, ops[..m]), ops[m].readings) && reported == Parsed(ops[m].readings).Keys
    && forall k :: m < k < n ==> ops[k].Saving() || (ops[k].Process? && Read(ops[k].readings) == {})
  }

  lemma {:induction false} EvidenceStands(t: Tracker, ops: seq<Op>) returns (m: nat)
    requires Evidence(t, ops).Some?
    ensures Stands(t, ops, m, |ops|, Evidence(t, ops).value)
  {
    var front, op := ops[..|ops| - 1], ops[|ops| - 1];
    if op.Saving() || Read(op.readings) == {} {
      m := EvidenceStands(t, front);
      assert front[..m] == ops[..m];
    } else {
      m := |front|;
      assert ops[..m] == front;
    }
  }

  // A fault is resolved exactly when it was active, this cycle is complete without it, and the evidence so far
  // was a complete cycle without it.
  lemma ResolvedExactly(t: Tracker, ops: seq<Op>, readings: seq<Reading>, fp: Fingerprint)
    requires Starts(t)
    ensures var s, e := Run(t, ops), Evidence(t, ops);
            fp in Gone(s, readings) <==>
              && fp in s.active && Complete(s, readings) && fp !in Parsed(readings)
              && e.Some? && fp !in e.value
  {
    EvidenceDecides(t, ops);
    RunSound(t, ops);
  }

  // Resolution is safe: two complete cycles without the fault, and between them no sighting, no failed or deferred
  // source, no doubt, no incomplete reading and no restart.
  lemma ResolvedOnlyAfterTwoAbsences(t: Tracker, ops: seq<Op>, readings: seq<Reading>, fp: Fingerprint) returns (m: nat)
    requires Starts(t) && fp in Gone(Run(t, ops), readings)
    ensures exists reported :: Stands(t, ops, m, |ops|, reported) && fp !in reported
    ensures Complete(Run(t, ops), readings) && fp !in Parsed(readings)
  {
    ResolvedExactly(t, ops, readings, fp);
    m := EvidenceStands(t, ops);
  }

  /** Every source whose reading ever succeeded. */
  ghost function EverRead(ops: seq<Op>): set<Path> {
    if ops == [] then {}
    else EverRead(ops[..|ops| - 1]) + if ops[|ops| - 1].Process? then Read(ops[|ops| - 1].readings) else {}
  }

  /** A restart loses a write that was ordered. */
  ghost predicate Loses(s: Tracker, op: Op) { op.Restart? && s.pending }

  /** No restart from operation `i` on, before operation `j`, came before a write that was ordered. */
  ghost predicate NothingLost(t: Tracker, ops: seq<Op>, i: nat, j: nat) {
    forall k :: i <= k < j && k < |ops| ==> !Loses(Run(t, ops[..k]), ops[k])
  }

  // A write is pending exactly when a cycle ordered one and nothing was written or restarted since.
  lemma {:induction false} PendingExactly(t: Tracker, ops: seq<Op>)
    requires !t.pending
    ensures Run(t, ops).pending <==> exists k: nat :: Orders(t, ops, k)
  {
    if ops != [] {
      var front, op := ops[..|ops| - 1], ops[|ops| - 1];
      PendingExactly(t, front);
      forall k: nat ensures Orders(t, ops, k) <==> if k < |front| then Orders(t, front, k) && !op.Saving() && !op.Restart?
                                                   else k == |front| && op.Process? && Saves(Run(t, front), op.readings) {
        OrdersNext(t, front, op, k);
        assert front + [op] == ops;
      }
      assert Orders(t, ops, |front|) <==> op.Process? && Saves(Run(t, front), op.readings);
    }
  }

  lemma OrdersNext(t: Tracker, ops: seq<Op>, op: Op, k: nat)
    ensures Orders(t, ops + [op], k) <==> if k < |ops| then Orders(t, ops, k) && !op.Saving() && !op.Restart?
                                          else k == |ops| && op.Process? && Saves(Run(t, ops), op.readings)
  {
    var all := ops + [op];
    if k < |ops| {
      assert all[..k] == ops[..k] && all[k] == ops[k] && all[|ops|] == op;
      assert Orders(t, all, k) ==> forall m :: k < m < |ops| ==> all[m] == ops[m];
      assert Orders(t, all, k) ==> Orders(t, ops, k);
    } else if k == |ops| {
      assert all[..k] == ops;
    }
  }

  /** Operation `k` ordered a write, and nothing was written or restarted since. */
  ghost predicate Orders(t: Tracker, ops: seq<Op>, k: nat) {
    && k < |ops| && ops[k].Process? && Saves(Run(t, ops[..k]), ops[k].readings)
    && forall m :: k < m < |ops| ==> !ops[m].Saving() && !ops[m].Restart?
  }

  // Every source ever required stays required, also across restarts that lose no write.
  lemma {:induction false} RequiredForGood(t: Tracker, ops: seq<Op>)
    requires Sound(t) && NothingLost(t, ops, 0, |ops|)
    ensures Run(t, ops).required == t.required + EverRead(ops)
  {
    if ops != [] {
      var front := ops[..|ops| - 1];
      NothingLostBefore(t, ops, 0);
      RequiredForGood(t, front);
      RunSound(t, front);
      assert !Loses(Run(t, ops[..|front|]), ops[|front|]);
      StepRequires(Run(t, front), ops[|front|]);
    }
  }

  lemma StepRequires(s: Tracker, op: Op)
    requires Sound(s) && !Loses(s, op)
    ensures Step(s, op).required == s.required + if op.Process? then Read(op.readings) else {}
  {
  }

  lemma NothingLostBefore(t: Tracker, ops: seq<Op>, i: nat)
    requires ops != [] && NothingLost(t, ops, i, |ops|)
    ensures NothingLost(t, ops[..|ops| - 1], i, |ops| - 1)
  {
    var front := ops[..|ops| - 1];
    forall k | i <= k < |front| ensures !Loses(Run(t, front[..k]), front[k]) {
      assert front[..k] == ops[..k];
    }
  }

  /**
    What a listener to the events believes to be active, starting from the silent baseline. A restart that loses a
    write tells the listener nothing, so it has to start anew.
   */
  ghost function Folded(t: Tracker, ops: seq<Op>): set<Fingerprint> {
    if ops == [] then t.active.Keys
    else
      var front, op := ops[..|ops| - 1], ops[|ops| - 1];
      if !Run(t, front).initialized || Loses(Run(t, front), op) then Run(t, ops).active.Keys
      else Folded(t, front) + AppearedAt(Run(t, front), op) - ResolvedAt(Run(t, front), op)
  }

  // Replaying the events gives exactly the active faults; nothing appears twice and only active faults resolve.
  lemma {:induction false} EventsReplay(t: Tracker, ops: seq<Op>)
    requires Sound(t)
    ensures Folded(t, ops) == Run(t, ops).active.Keys
    ensures ops != [] ==>
              var s, op := Run(t, ops[..|ops| - 1]), ops[|ops| - 1];
              AppearedAt(s, op) !! s.active.Keys && ResolvedAt(s, op) <= s.active.Keys && AppearedAt(s, op) !! ResolvedAt(s, op)
  {
    if ops != [] {
      var front, op := ops[..|ops| - 1], ops[|ops| - 1];
      EventsReplay(t, front);
      RunSound(t, front);
      if !Loses(Run(t, front), op) && Run(t, front).initialized {
        StepReplays(Run(t, front), op);
      }
    }
  }

  lemma StepReplays(s: Tracker, op: Op)
    requires Sound(s) && s.initialized && !Loses(s, op)
    ensures Step(s, op).active.Keys == s.active.Keys + AppearedAt(s, op) - ResolvedAt(s, op)
  {
  }

  /** A fault is active without interruption from after `i` operations to after `j`. */
  ghost predicate Lasts(t: Tracker, ops: seq<Op>, i: nat, j: nat, fp: Fingerprint) {
    i <= j <= |ops| && forall k :: i <= k <= j ==> fp in Run(t, ops[..k]).active
  }

  ghost predicate NoRestart(ops: seq<Op>, i: nat, j: nat) { forall k :: i <= k < j && k < |ops| ==> !ops[k].Restart? }

  /** The same first sighting and, while the tracker runs on, the same known time of occurrence. */
  ghost predicate TimesKept(first: Fault, last: Fault, running: bool) {
    && last.firstSeen == first.firstSeen
    && (first.occurredAt.Some? && running ==> last.occurredAt == first.occurredAt && last.timeSource == first.timeSource)
  }

  function Incident(s: Tracker, fp: Fingerprint): Option<Fault> { if fp in s.active then Some(s.active[fp]) else None }

  // Within one incident the first sighting never changes, nor does a known time of occurrence until a restart.
  lemma IncidentKeepsTimes(t: Tracker, ops: seq<Op>, i: nat, j: nat, fp: Fingerprint)
    requires Sound(t) && Lasts(t, ops, i, j, fp) && NothingLost(t, ops, i, j)
    ensures TimesKept(Run(t, ops[..i]).active[fp], Run(t, ops[..j]).active[fp], NoRestart(ops, i, j)) == true
  {
    var incidents := seq(j + 1, k requires 0 <= k <= |ops| => Incident(Run(t, ops[..k]), fp));
    var running := seq(j, k requires 0 <= k < |ops| => !ops[k].Restart?);
    forall k | i <= k < j ensures TimesKept(incidents[k].value, incidents[k + 1].value, running[k]) {
      TimesKeptAt(t, ops, k, fp);
    }
    KeptAlong(incidents, running, i, j);
    assert NoRestart(ops, i, j) ==> forall k :: i <= k < j ==> running[k];
  }

  lemma {:induction false} KeptAlong(incidents: seq<Option<Fault>>, running: seq<bool>, i: nat, j: nat)
    requires i <= j < |incidents| && j <= |running| && forall k :: i <= k <= j ==> incidents[k].Some?
    requires forall k :: i <= k < j ==> TimesKept(incidents[k].value, incidents[k + 1].value, running[k])
    ensures TimesKept(incidents[i].value, incidents[j].value, forall k :: i <= k < j ==> running[k])
  {
    if i < j {
      KeptAlong(incidents, running, i, j - 1);
    }
  }

  lemma TimesKeptAt(t: Tracker, ops: seq<Op>, k: nat, fp: Fingerprint)
    requires Sound(t) == true && k < |ops| && !Loses(Run(t, ops[..k]), ops[k])
    requires fp in Run(t, ops[..k]).active && fp in Run(t, ops[..k + 1]).active
    ensures TimesKept(Run(t, ops[..k]).active[fp], Run(t, ops[..k + 1]).active[fp], !ops[k].Restart?) == true
  {
    RunAt(t, ops, k);
    RunSound(t, ops[..k]);
    StepKeepsTimes(Run(t, ops[..k]), ops[k], fp);
  }

  lemma StepKeepsTimes(s: Tracker, op: Op, fp: Fingerprint)
    requires Sound(s) && fp in s.active && fp in Step(s, op).active && !Loses(s, op)
    ensures TimesKept(s.active[fp], Step(s, op).active[fp], !op.Restart?)
  {
  }

  // At every moment a fault has the contents of the latest report of it since the last restart.
  lemma {:induction false} LatestReportShows(t: Tracker, ops: seq<Op>, k: nat, fp: Fingerprint)
    requires k < |ops| && ops[k].Process? && fp in Parsed(ops[k].readings) && NoRestart(ops, k, |ops|)
    requires forall j :: k < j < |ops| && ops[j].Process? ==> fp !in Parsed(ops[j].readings)
    ensures Run(t, ops).initialized
    ensures fp in Run(t, ops).active ==>
              && SameContents(Parsed(ops[k].readings)[fp], Run(t, ops).active[fp])
              && Run(t, ops).active[fp].componentId == Parsed(ops[k].readings)[fp].componentId
              && Parsed(ops[k].readings)[fp].sources <= Run(t, ops).active[fp].sources
  {
    var front, op := ops[..|ops| - 1], ops[|ops| - 1];
    if k < |front| {
      LatestReportShows(t, front, k, fp);
      UnreportedStays(Run(t, front), op, fp);
    } else {
      ReportShows(Run(t, front), op.readings, fp);
    }
  }

  lemma UnreportedStays(s: Tracker, op: Op, fp: Fingerprint)
    requires !op.Restart? && (op.Process? ==> fp !in Parsed(op.readings)) && s.initialized
    ensures Step(s, op).initialized && (fp in Step(s, op).active ==> fp in s.active && Step(s, op).active[fp] == s.active[fp])
  {
  }

  lemma ReportShows(s: Tracker, readings: seq<Reading>, fp: Fingerprint)
    requires fp in Parsed(readings)
    ensures var n, r := Processed(s, readings).active, Parsed(readings)[fp];
            fp in n && SameContents(r, n[fp]) && n[fp].componentId == r.componentId && r.sources <= n[fp].sources
  {
    if s.initialized {
      CycleRecords(s, readings, fp);
    }
  }

  /** An operation that writes the baseline. */
  predicate WrittenBy(s: Tracker, op: Op) { op.Flush? || (op.Write? && s.pending) }

  ghost predicate WrittenBetween(t: Tracker, ops: seq<Op>, i: nat, j: nat) {
    exists k :: i <= k < j && k < |ops| && WrittenBy(Run(t, ops[..k]), ops[k])
  }

  predicate Holds(store: Option<Store>, fp: Fingerprint) { store.Some? && fp in store.value.active }

  predicate Demands(store: Option<Store>, p: Path) { store.Some? && p in store.value.required }

  predicate KnowsTime(store: Option<Store>, fp: Fingerprint, f: Fault) {
    Holds(store, fp) && store.value.active[fp].occurredAt == f.occurredAt
  }

  predicate KnowsFirst(store: Option<Store>, fp: Fingerprint, f: Fault) {
    Holds(store, fp) && store.value.active[fp].firstSeen == f.firstSeen
  }

  // An incident outlives a restart exactly when it was written: before, or since.
  lemma IncidentSurvivesExactly(t: Tracker, ops: seq<Op>, i: nat, j: nat, fp: Fingerprint)
    requires Sound(t) && Lasts(t, ops, i, j, fp) && NoRestart(ops, i, j)
    ensures fp in Restarted(Run(t, ops[..j])).active <==> Holds(Run(t, ops[..i]).store, fp) || WrittenBetween(t, ops, i, j)
  {
    var holds := store => Holds(store, fp);
    forall k | i <= k < j ensures FillsAt(t, ops, k, holds) == true {
      RunAt(t, ops, k);
    }
    StoreLatches(t, ops, i, j, holds);
  }

  // A known time of occurrence outlives a restart exactly when it was written: before, or since.
  lemma KnownTimeSurvivesExactly(t: Tracker, ops: seq<Op>, i: nat, j: nat, fp: Fingerprint, f: Fault)
    requires Sound(t) && Lasts(t, ops, i, j, fp) && NoRestart(ops, i, j)
    requires f == Run(t, ops[..i]).active[fp] && f.occurredAt.Some?
    ensures var again := Restarted(Run(t, ops[..j])).active;
            fp in again && again[fp].occurredAt == f.occurredAt <==>
              KnowsTime(Run(t, ops[..i]).store, fp, f) || WrittenBetween(t, ops, i, j)
  {
    var holds := store => KnowsTime(store, fp, f);
    forall k | i <= k < j ensures FillsAt(t, ops, k, holds) == true {
      IncidentKeepsTimes(t, ops, i, k, fp);
      RunAt(t, ops, k);
    }
    StoreLatches(t, ops, i, j, holds);
  }

  // The first sighting of an incident outlives a restart exactly when it was written: before, or since.
  lemma FirstSightingSurvivesExactly(t: Tracker, ops: seq<Op>, i: nat, j: nat, fp: Fingerprint, f: Fault)
    requires Sound(t) && Lasts(t, ops, i, j, fp) && NoRestart(ops, i, j) && f == Run(t, ops[..i]).active[fp]
    ensures var again := Restarted(Run(t, ops[..j])).active;
            fp in again && again[fp].firstSeen == f.firstSeen <==>
              KnowsFirst(Run(t, ops[..i]).store, fp, f) || WrittenBetween(t, ops, i, j)
  {
    var holds := store => KnowsFirst(store, fp, f);
    forall k | i <= k < j ensures FillsAt(t, ops, k, holds) == true {
      IncidentKeepsTimes(t, ops, i, k, fp);
      RunAt(t, ops, k);
    }
    StoreLatches(t, ops, i, j, holds);
  }

  // A required source outlives a restart exactly when it was written: before, or since.
  lemma SourceSurvivesExactly(t: Tracker, ops: seq<Op>, i: nat, j: nat, p: Path)
    requires i <= j <= |ops| && p in Run(t, ops[..i]).required && NoRestart(ops, i, j)
    ensures p in Restarted(Run(t, ops[..j])).required <==> Demands(Run(t, ops[..i]).store, p) || WrittenBetween(t, ops, i, j)
  {
    var holds := store => Demands(store, p);
    forall k | i <= k < j ensures FillsAt(t, ops, k, holds) == true {
      StaysRequired(t, ops, i, k, p);
      RunAt(t, ops, k);
    }
    StoreLatches(t, ops, i, j, holds);
  }

  lemma {:induction false} StaysRequired(t: Tracker, ops: seq<Op>, i: nat, j: nat, p: Path)
    requires i <= j <= |ops| && p in Run(t, ops[..i]).required && NoRestart(ops, i, j)
    ensures p in Run(t, ops[..j]).required
  {
    if i < j {
      StaysRequired(t, ops, i, j - 1, p);
      RunAt(t, ops, j - 1);
      StepKeepsRequired(Run(t, ops[..j - 1]), ops[j - 1]);
    }
  }

  lemma StepKeepsRequired(s: Tracker, op: Op)
    requires !op.Restart?
    ensures s.required <= Step(s, op).required
  {
  }

  lemma RunAt(t: Tracker, ops: seq<Op>, j: nat)
    requires j < |ops|
    ensures Run(t, ops[..j + 1]) == Step(Run(t, ops[..j]), ops[j])
  {
    assert ops[..j + 1][..j] == ops[..j];
  }

  /** If operation `k` writes the store, this holds of it afterwards. */
  ghost predicate FillsAt(t: Tracker, ops: seq<Op>, k: int, holds: Option<Store> -> bool) {
    0 <= k < |ops| && WrittenBy(Run(t, ops[..k]), ops[k]) ==> holds(Run(t, ops[..k + 1]).store)
  }

  // What every write makes true of the store holds exactly if it held before, or the store was written since.
  lemma {:induction false} StoreLatches(t: Tracker, ops: seq<Op>, i: nat, j: nat, holds: Option<Store> -> bool)
    requires i <= j <= |ops| && NoRestart(ops, i, j) && forall k :: i <= k < j ==> FillsAt(t, ops, k, holds) == true
    ensures holds(Run(t, ops[..j]).store) <==> holds(Run(t, ops[..i]).store) || WrittenBetween(t, ops, i, j)
  {
    if i < j {
      StoreLatches(t, ops, i, j - 1, holds);
      LatchNext(t, ops, j - 1, holds);
      WrittenNext(t, ops, i, j);
    }
  }

  lemma LatchNext(t: Tracker, ops: seq<Op>, k: nat, holds: Option<Store> -> bool)
    requires k < |ops| && !ops[k].Restart? && FillsAt(t, ops, k, holds)
    ensures holds(Run(t, ops[..k + 1]).store) <==> holds(Run(t, ops[..k]).store) || WrittenBy(Run(t, ops[..k]), ops[k])
  {
    RunAt(t, ops, k);
    StoreKept(Run(t, ops[..k]), ops[k]);
  }

  lemma WrittenNext(t: Tracker, ops: seq<Op>, i: nat, j: nat)
    requires i < j <= |ops|
    ensures WrittenBetween(t, ops, i, j) <==> WrittenBetween(t, ops, i, j - 1) || WrittenBy(Run(t, ops[..j - 1]), ops[j - 1])
  {
  }

  lemma StoreKept(s: Tracker, op: Op)
    requires !op.Restart?
    ensures WrittenBy(s, op) || Step(s, op).store == s.store
  {
  }

  const NOTIFICATIONS := Path("/notifications")
  const F := Fingerprint("f")

  function Seen(occurredAt: Option<int>, now: int): Fault {
    Fault(F, None, Serious, None, None, occurredAt, now, now, if occurredAt.Some? then Cloud else Observed, {NOTIFICATIONS})
  }

  /** A complete cycle that reports these faults. */
  function Cycle(faults: seq<Fault>): Op { Process([Reading(NOTIFICATIONS, true, true, faults, 0)]) }

  lemma CycleReads(faults: seq<Fault>)
    requires faults == [] || exists occurredAt, now :: faults == [Seen(occurredAt, now)]
    ensures var readings := Cycle(faults).readings;
            && Parsed(readings) == (if faults == [] then map[] else map[F := faults[0]])
            && Read(readings) == {NOTIFICATIONS} && Invalid(readings) == 0
  {
    var r := Cycle(faults).readings[0];
    assert Cycle(faults).readings[..0] == [];
    if faults != [] {
      assert faults[..0] == [] && AddAll(map[], faults) == Add(AddAll(map[], faults[..0]), faults[0]);
    }
  }

  lemma RunNext(t: Tracker, ops: seq<Op>, op: Op)
    ensures Run(t, ops + [op]) == Step(Run(t, ops), op)
  {
    assert (ops + [op])[..|ops|] == ops;
  }

  // The silent baseline of a first cycle, written.
  lemma Started(a: Op, faults: seq<Fault>) returns (s: Tracker)
    requires a == Cycle(faults) && (faults == [] || faults == [Seen(None, 0)])
    ensures s == Run(FRESH_TRACKER, [a, Write]) && s.initialized && !s.pending && s.required == {NOTIFICATIONS}
    ensures s.unverified == {} && s.absence == map[] && s.active == (if faults == [] then map[] else map[F := faults[0]])
    ensures s.store == Some(Baseline(s.active, s.required, s.unverified)) && Loaded(s.store).active.Keys == s.active.Keys
    ensures Loaded(s.store).initialized
  {
    CycleReads(faults);
    RunNext(FRESH_TRACKER, [], a);
    RunNext(FRESH_TRACKER, [a], Write);
    assert [] + [a] == [a] && [a] + [Write] == [a, Write];
    s := Run(FRESH_TRACKER, [a, Write]);
    FirstWritten(a.readings, faults);
  }

  lemma FirstWritten(readings: seq<Reading>, faults: seq<Fault>)
    requires Parsed(readings) == (if faults == [] then map[] else map[F := faults[0]]) && Read(readings) == {NOTIFICATIONS}
    ensures var s := Written(Processed(FRESH_TRACKER, readings));
            && s.initialized && !s.pending && s.required == {NOTIFICATIONS} && s.unverified == {} && s.absence == map[]
            && s.active == (if faults == [] then map[] else map[F := faults[0]])
            && s.store == Some(Baseline(s.active, s.required, s.unverified))
  {
  }

  // A time learned by a later sighting of the same fault orders no write: a restart forgets it.
  lemma KnownTimeIsForgotten() returns (ops: seq<Op>)
    ensures ops == [Cycle([Seen(None, 0)]), Write, Cycle([Seen(Some(7), 1)])]
    ensures var before := Run(FRESH_TRACKER, ops);
            && !before.pending && F in before.active && before.active[F].occurredAt == Some(7)
            && F in Restarted(before).active && Restarted(before).active[F].occurredAt == None
  {
    var a, b := Cycle([Seen(None, 0)]), Cycle([Seen(Some(7), 1)]);
    var s := Started(a, [Seen(None, 0)]);
    RunNext(FRESH_TRACKER, [a, Write], b);
    ops := [a, Write] + [b];
    LearnsTime(s);
  }

  lemma LearnsTime(s: Tracker)
    requires s.initialized && s.required == {NOTIFICATIONS} && s.unverified == {} && s.active == map[F := Seen(None, 0)]
    ensures var after := Processed(s, Cycle([Seen(Some(7), 1)]).readings);
            after.active.Keys == {F} && after.active[F].occurredAt == Some(7) && after.pending == s.pending && after.store == s.store
  {
    var readings := Cycle([Seen(Some(7), 1)]).readings;
    CycleReads([Seen(Some(7), 1)]);
    assert New(s, readings) == {} && Gone(s, readings) == {};
  }

  // A restart that loses a write may report a fault as new again ...
  lemma AppearsTwice() returns (ops: seq<Op>)
    ensures ops == [Cycle([]), Write, Cycle([Seen(None, 0)]), Restart]
    ensures F in AppearedAt(Run(FRESH_TRACKER, ops[..2]), ops[2])
    ensures F in AppearedAt(Run(FRESH_TRACKER, ops), Cycle([Seen(None, 1)]))
    ensures ResolvedAt(Run(FRESH_TRACKER, ops[..3]), ops[3]) == {} && Loses(Run(FRESH_TRACKER, ops[..3]), ops[3])
  {
    var a, b := Cycle([]), Cycle([Seen(None, 0)]);
    CycleReads([]);
    CycleReads([Seen(None, 0)]);
    CycleReads([Seen(None, 1)]);
    var s := Started(a, []);
    RunNext(FRESH_TRACKER, [a, Write], b);
    RunNext(FRESH_TRACKER, [a, Write] + [b], Restart);
    ops := [a, Write] + [b] + [Restart];
    assert ops[..2] == [a, Write] && ops[..3] == [a, Write] + [b];
    assert F in New(s, b.readings);
    var again := Loaded(s.store);
    assert again == Run(FRESH_TRACKER, ops);
    assert F in New(again, Cycle([Seen(None, 1)]).readings);
  }

  // ... and may take an incident for an older one with the same fingerprint, whose resolution was not written.
  lemma FirstSightingIsLost() returns (ops: seq<Op>)
    ensures ops == [Cycle([Seen(None, 0)]), Write] + [Cycle([])] + [Cycle([])] + [Cycle([Seen(None, 5)])]
    ensures var s := Run(FRESH_TRACKER, ops);
            && F in s.active && s.active[F].firstSeen == 5
            && F in Restarted(s).active && Restarted(s).active[F].firstSeen == 0
  {
    var first := [Cycle([Seen(None, 0)]), Write];
    var s := Started(Cycle([Seen(None, 0)]), [Seen(None, 0)]);
    Misses(first);
    MissesAgain(first + [Cycle([])]);
    SeesAnew(first + [Cycle([])] + [Cycle([])]);
    ops := first + [Cycle([])] + [Cycle([])] + [Cycle([Seen(None, 5)])];
  }

  ghost predicate Watches(s: Tracker) {
    s.initialized && s.required == {NOTIFICATIONS} && s.unverified == {} && s.store.Some? && F in s.store.value.active
    && s.store.value.active[F].firstSeen == 0
  }

  lemma Misses(ops: seq<Op>)
    requires Watches(Run(FRESH_TRACKER, ops)) && F in Run(FRESH_TRACKER, ops).active && F !in Run(FRESH_TRACKER, ops).absence
    ensures var once := Run(FRESH_TRACKER, ops + [Cycle([])]);
            Watches(once) && F in once.active && F in once.absence && once.absence[F] == 1
  {
    CycleReads([]);
    RunNext(FRESH_TRACKER, ops, Cycle([]));
  }

  lemma MissesAgain(ops: seq<Op>)
    requires Watches(Run(FRESH_TRACKER, ops)) && F in Run(FRESH_TRACKER, ops).active
    requires F in Run(FRESH_TRACKER, ops).absence && Run(FRESH_TRACKER, ops).absence[F] == 1
    ensures var twice := Run(FRESH_TRACKER, ops + [Cycle([])]);
            Watches(twice) && F !in twice.active
  {
    CycleReads([]);
    RunNext(FRESH_TRACKER, ops, Cycle([]));
    assert F in Gone(Run(FRESH_TRACKER, ops), Cycle([]).readings);
  }

  lemma SeesAnew(ops: seq<Op>)
    requires Watches(Run(FRESH_TRACKER, ops)) && F !in Run(FRESH_TRACKER, ops).active
    ensures var s := Run(FRESH_TRACKER, ops + [Cycle([Seen(None, 5)])]);
            Watches(s) && F in s.active && s.active[F].firstSeen == 5
  {
    CycleReads([Seen(None, 5)]);
    RunNext(FRESH_TRACKER, ops, Cycle([Seen(None, 5)]));
  }

  // ... and may forget a source that was required.
  lemma SourceIsForgotten()
    ensures Run(FRESH_TRACKER, [Cycle([]), Restart]).required == {} && EverRead([Cycle([]), Restart]) == {NOTIFICATIONS}
  {
    UnwrittenIsForgotten(Cycle([]));
    OnceRead(Cycle([]));
  }

  lemma UnwrittenIsForgotten(a: Op)
    requires a.Process?
    ensures Run(FRESH_TRACKER, [a, Restart]) == FRESH_TRACKER
  {
    RunNext(FRESH_TRACKER, [], a);
    RunNext(FRESH_TRACKER, [a], Restart);
    assert [] + [a] == [a] && [a] + [Restart] == [a, Restart];
    FirstIsUnwritten(a.readings);
  }

  lemma FirstIsUnwritten(readings: seq<Reading>)
    ensures Restarted(Processed(FRESH_TRACKER, readings)) == FRESH_TRACKER
  {
  }

  lemma OnceRead(a: Op)
    requires a == Cycle([])
    ensures EverRead([a, Restart]) == {NOTIFICATIONS}
  {
    CycleReads([]);
    EverReadNext([], a);
    EverReadNext([a], Restart);
    assert [] + [a] == [a] && [a] + [Restart] == [a, Restart];
  }

  lemma EverReadNext(ops: seq<Op>, op: Op)
    ensures EverRead(ops + [op]) == EverRead(ops) + if op.Process? then Read(op.readings) else {}
  {
    assert (ops + [op])[..|ops|] == ops;
  }

  // Between two appearances of a fault it was resolved, or a restart lost a write.
  lemma {:induction false} AppearsOnce(t: Tracker, ops: seq<Op>, i: nat, j: nat, fp: Fingerprint) returns (k: nat)
    requires Sound(t) && i < j < |ops|
    requires fp in AppearedAt(Run(t, ops[..i]), ops[i]) && fp in AppearedAt(Run(t, ops[..j]), ops[j])
    ensures i < k < j && (fp in ResolvedAt(Run(t, ops[..k]), ops[k]) || Loses(Run(t, ops[..k]), ops[k]))
  {
    RunAt(t, ops, i);
    AppearedIsActive(Run(t, ops[..i]), ops[i], fp);
    AppearedIsActive(Run(t, ops[..j]), ops[j], fp);
    k := LeavesBetween(t, ops, i + 1, j, fp);
  }

  lemma AppearedIsActive(s: Tracker, op: Op, fp: Fingerprint)
    requires fp in AppearedAt(s, op)
    ensures fp !in s.active && fp in Step(s, op).active
  {
  }

  lemma LeavesByResolving(s: Tracker, op: Op, fp: Fingerprint)
    requires Sound(s) == true && fp in s.active && fp !in Step(s, op).active
    ensures fp in ResolvedAt(s, op) || Loses(s, op)
  {
  }

  lemma {:induction false} Drops(active: seq<bool>, i: nat, j: nat) returns (k: nat)
    requires i <= j < |active| && active[i] && !active[j]
    ensures i <= k < j && active[k] && !active[k + 1]
  {
    if active[j - 1] {
      k := j - 1;
    } else {
      k := Drops(active, i, j - 1);
    }
  }

  // An active fault that is gone later was resolved in between, or a restart lost a write.
  lemma LeavesBetween(t: Tracker, ops: seq<Op>, i: nat, j: nat, fp: Fingerprint) returns (k: nat)
    requires Sound(t) && i <= j <= |ops|
    requires fp in Run(t, ops[..i]).active && fp !in Run(t, ops[..j]).active
    ensures i <= k < j && (fp in ResolvedAt(Run(t, ops[..k]), ops[k]) || Loses(Run(t, ops[..k]), ops[k]))
  {
    var active := seq(|ops| + 1, m requires 0 <= m <= |ops| => fp in Run(t, ops[..m]).active);
    k := LeavesFrom(t, ops, i, j, fp, active);
  }

  lemma LeavesFrom(t: Tracker, ops: seq<Op>, i: nat, j: nat, fp: Fingerprint, active: seq<bool>) returns (k: nat)
    requires Sound(t) && i <= j <= |ops| && |active| == |ops| + 1 && active[i] && !active[j]
    requires forall m :: 0 <= m <= |ops| ==> active[m] == (fp in Run(t, ops[..m]).active)
    ensures i <= k < j && (fp in ResolvedAt(Run(t, ops[..k]), ops[k]) || Loses(Run(t, ops[..k]), ops[k]))
  {
    k := Drops(active, i, j);
    LeavesAt(t, ops, k, fp);
  }

  lemma LeavesAt(t: Tracker, ops: seq<Op>, k: nat, fp: Fingerprint)
    requires Sound(t) && k < |ops| && fp in Run(t, ops[..k]).active && fp !in Run(t, ops[..k + 1]).active
    ensures fp in ResolvedAt(Run(t, ops[..k]), ops[k]) || Loses(Run(t, ops[..k]), ops[k])
  {
    RunAt(t, ops, k);
    RunSound(t, ops[..k]);
    LeavesByResolving(Run(t, ops[..k]), ops[k], fp);
  }

  // A restart with no write pending keeps the incidents and their first sightings, still demands every source, and
  // believes nothing current.
  lemma RestartKeeps(t: Tracker)
    requires Sound(t) && t.initialized && !t.pending
    ensures var r := Restarted(t);
            && Starts(r) && r.initialized && r.active.Keys == t.active.Keys
            && r.required == t.required && r.unverified == t.unverified && !Confirmed(r)
            && forall fp :: fp in t.active ==> SameIncident(r.active[fp], t.active[fp])
  {
  }

  // Whatever was stored, also by an older version, a loaded tracker starts without current evidence.
  lemma LoadedStarts(store: Option<Store>)
    ensures Starts(Loaded(store)) && Restarted(Loaded(store)) == Loaded(store)
  {
  }

  /** A fault that must be seen again before anything resolves, also after a restart. */
  ghost predicate Awaited(s: Tracker, fp: Fingerprint) {
    && s.initialized && fp in s.unverified && fp in s.active
    && s.store.Some? && fp in s.store.value.active && fp in Restored(s.store.value)
  }

  ghost predicate NeverReported(ops: seq<Op>, fp: Fingerprint) {
    forall k :: 0 <= k < |ops| && ops[k].Process? ==> fp !in Parsed(ops[k].readings)
  }

  lemma StepAwaits(s: Tracker, op: Op, fp: Fingerprint)
    requires Awaited(s, fp) && (op.Process? ==> fp !in Parsed(op.readings))
    ensures Awaited(Step(s, op), fp) && ResolvedAt(s, op) == {}
  {
  }

  lemma {:induction false} StaysAwaited(t: Tracker, ops: seq<Op>, fp: Fingerprint)
    requires Awaited(t, fp) && NeverReported(ops, fp)
    ensures Awaited(Run(t, ops), fp) == true
  {
    if ops != [] {
      StaysAwaited(t, ops[..|ops| - 1], fp);
      StepAwaits(Run(t, ops[..|ops| - 1]), ops[|ops| - 1], fp);
    }
  }

  // A store without evidence restores its incidents, and no fault at all resolves in any run, across writes and
  // restarts, until each of them was reported again.
  lemma LegacyStoreResolvesNothing(store: Store, ops: seq<Op>, readings: seq<Reading>, fp: Fingerprint)
    requires store.required == {} || store.unverified.NoList?
    requires fp in store.active && NeverReported(ops, fp) && fp !in Parsed(readings)
    ensures var s := Run(Loaded(Some(store)), ops);
            fp in s.active && fp in s.unverified && Gone(s, readings) == {}
  {
    StaysAwaited(Loaded(Some(store)), ops, fp);
    StepAwaits(Run(Loaded(Some(store)), ops), Process(readings), fp);
  }

  // ----- The tracker as an object -----

  ghost predicate Keyed(faults: map<Fingerprint, Fault>) {
    forall fp :: fp in faults ==> faults[fp].fingerprint == fp
  }

  /** The faults that the events of one kind announce, and the number of these events. */
  function Announced(events: seq<Event>, kind: EventType): (r: set<Fingerprint>) {
    if events == [] then {}
    else
      var earlier, e := Announced(events[..|events| - 1], kind), events[|events| - 1];
      if e.kind == kind then earlier + {e.fault.fingerprint} else earlier
  }

  function Announcements(events: seq<Event>, kind: EventType): nat {
    if events == [] then 0
    else Announcements(events[..|events| - 1], kind) + if events[|events| - 1].kind == kind then 1 else 0
  }

  /** The events of a kind announce exactly these faults, each once. */
  ghost predicate Announces(events: seq<Event>, kind: EventType, fps: set<Fingerprint>) {
    Announced(events, kind) == fps && Announcements(events, kind) == |fps|
  }

  /** Each event of a kind carries the fault of its fingerprint from this record. */
  ghost predicate Carries(events: seq<Event>, kind: EventType, faults: map<Fingerprint, Fault>) {
    forall i :: 0 <= i < |events| && events[i].kind == kind ==>
      events[i].fault.fingerprint in faults && events[i].fault == faults[events[i].fault.fingerprint]
  }

  lemma AnnounceOne(events: seq<Event>, e: Event, kind: EventType, fps: set<Fingerprint>)
    requires Announces(events, kind, fps) && (e.kind == kind ==> e.fault.fingerprint !in fps)
    ensures Announces(events + [e], kind, if e.kind == kind then fps + {e.fault.fingerprint} else fps)
  {
    assert (events + [e])[..|events|] == events;
  }

  /** The active faults when the parsed ones in `done` have been taken over. */
  function Updated(active: map<Fingerprint, Fault>, parsed: map<Fingerprint, Fault>, done: set<Fingerprint>): map<Fingerprint, Fault>
    requires done <= parsed.Keys
  {
    map fp | fp in active.Keys + done ::
      if fp !in done then active[fp] else if fp in active then Again(active[fp], parsed[fp]) else parsed[fp]
  }

  /** The absent faults in `done` have been counted: those counted twice are gone. */
  function Remaining(active: map<Fingerprint, Fault>, absence: map<Fingerprint, nat>, done: set<Fingerprint>): map<Fingerprint, Fault> {
    map fp | fp in active && !(fp in done && Count(absence, fp) + 1 >= CONFIRMATIONS) :: active[fp]
  }

  function Counted(absence: map<Fingerprint, nat>, done: set<Fingerprint>): map<Fingerprint, nat> {
    map fp | fp in absence.Keys + done && !(fp in done && Count(absence, fp) + 1 >= CONFIRMATIONS) ::
      if fp in done then Count(absence, fp) + 1 else absence[fp]
  }

  lemma UpdatedNext(active: map<Fingerprint, Fault>, parsed: map<Fingerprint, Fault>, done: set<Fingerprint>, fp: Fingerprint)
    requires done <= parsed.Keys && fp in parsed && fp !in done
    ensures (fp in Updated(active, parsed, done) <==> fp in active) && (fp in active ==> Updated(active, parsed, done)[fp] == active[fp])
    ensures Updated(active, parsed, done + {fp}) ==
              Updated(active, parsed, done)[fp := if fp in active then Again(active[fp], parsed[fp]) else parsed[fp]]
  {
  }

  lemma RemainingNext(active: map<Fingerprint, Fault>, absence: map<Fingerprint, nat>, done: set<Fingerprint>, fp: Fingerprint)
    requires fp in active && fp !in done
    ensures fp in Remaining(active, absence, done) && Remaining(active, absence, done)[fp] == active[fp]
    ensures Remaining(active, absence, done + {fp}) ==
              if Count(absence, fp) + 1 >= CONFIRMATIONS then Remaining(active, absence, done) - {fp}
              else Remaining(active, absence, done)
  {
  }

  lemma CountedNext(absence: map<Fingerprint, nat>, done: set<Fingerprint>, fp: Fingerprint)
    requires fp !in done
    ensures Count(Counted(absence, done), fp) == Count(absence, fp)
    ensures Counted(absence, done + {fp}) ==
              if Count(absence, fp) + 1 >= CONFIRMATIONS then Counted(absence, done) - {fp}
              else Counted(absence, done)[fp := Count(absence, fp) + 1]
  {
  }

  /** Of these absent faults, those counted for the second time. */
  function Twice(absence: map<Fingerprint, nat>, absent: set<Fingerprint>): set<Fingerprint> {
    set fp | fp in absent && Count(absence, fp) + 1 >= CONFIRMATIONS
  }

  /** The records that one cycle changes step by step. */
  datatype Book = Book(active: map<Fingerprint, Fault>, absence: map<Fingerprint, nat>, events: seq<Event>)

  function TakeOne(b: Book, parsed: map<Fingerprint, Fault>, fp: Fingerprint): Book
    requires fp in parsed
  {
    if fp in b.active then Book(b.active[fp := Again(b.active[fp], parsed[fp])], b.absence - {fp}, b.events)
    else Book(b.active[fp := parsed[fp]], b.absence - {fp}, b.events + [Event(Appeared, parsed[fp])])
  }

  function TakeAll(b: Book, parsed: map<Fingerprint, Fault>, order: seq<Fingerprint>): Book
    requires forall fp :: fp in order ==> fp in parsed
  {
    if order == [] then b else TakeOne(TakeAll(b, parsed, order[..|order| - 1]), parsed, order[|order| - 1])
  }

  ghost predicate TakenOver(b: Book, parsed: map<Fingerprint, Fault>, done: set<Fingerprint>, r: Book)
    requires done <= parsed.Keys
  {
    && r.active == Updated(b.active, parsed, done) && r.absence == b.absence - done
    && Announces(r.events, Appeared, done - b.active.Keys) && Announces(r.events, Resolved, {})
  }

  lemma UpdatedKeyed(active: map<Fingerprint, Fault>, parsed: map<Fingerprint, Fault>, done: set<Fingerprint>)
    requires Keyed(active) && Keyed(parsed) && done <= parsed.Keys
    ensures Keyed(Updated(active, parsed, done))
  {
  }

  lemma AppearedOneIs(b: Book, parsed: map<Fingerprint, Fault>, done: set<Fingerprint>, r: Book, fp: Fingerprint)
    requires Keyed(parsed) && fp in parsed && fp !in done && (fp in r.active <==> fp in b.active)
    requires Announces(r.events, Appeared, done - b.active.Keys) && Announces(r.events, Resolved, {})
    ensures Announces(TakeOne(r, parsed, fp).events, Appeared, done + {fp} - b.active.Keys)
    ensures Announces(TakeOne(r, parsed, fp).events, Resolved, {})
  {
    NewNext(done, b.active.Keys, fp);
    if fp !in b.active {
      AnnounceOne(r.events, Event(Appeared, parsed[fp]), Appeared, done - b.active.Keys);
      AnnounceOne(r.events, Event(Appeared, parsed[fp]), Resolved, {});
    }
  }

  lemma TakeOneIs(b: Book, parsed: map<Fingerprint, Fault>, done: set<Fingerprint>, r: Book, fp: Fingerprint)
    requires Keyed(parsed) && fp in parsed && fp !in done && done <= parsed.Keys && TakenOver(b, parsed, done, r)
    ensures TakenOver(b, parsed, done + {fp}, TakeOne(r, parsed, fp)) == true
  {
    UpdatedNext(b.active, parsed, done, fp);
    SubtractNext(b.absence, done, fp);
    AppearedOneIs(b, parsed, done, r, fp);
  }

  lemma TakeNone(b: Book, parsed: map<Fingerprint, Fault>)
    requires b.events == []
    ensures TakenOver(b, parsed, {}, b)
  {
    assert Updated(b.active, parsed, {}) == b.active && b.absence - {} == b.absence;
    assert {} - b.active.Keys == {};
  }

  lemma SubtractNext(counts: map<Fingerprint, nat>, done: set<Fingerprint>, fp: Fingerprint)
    ensures counts - done - {fp} == counts - (done + {fp})
  {
  }

  lemma NewNext(done: set<Fingerprint>, known: set<Fingerprint>, fp: Fingerprint)
    ensures done + {fp} - known == if fp in known then done - known else done - known + {fp}
  {
  }

  lemma {:induction false} TakeAllIs(b: Book, parsed: map<Fingerprint, Fault>, order: seq<Fingerprint>)
    requires Keyed(parsed) && b.events == []
    requires RepeatFree(order) && forall fp :: fp in order ==> fp in parsed
    ensures TakenOver(b, parsed, Elements(order), TakeAll(b, parsed, order)) == true
  {
    if order == [] {
      TakeNone(b, parsed);
    } else {
      var front, fp := order[..|order| - 1], order[|order| - 1];
      ElementsLast(order);
      TakeAllIs(b, parsed, front);
      TakeOneIs(b, parsed, Elements(front), TakeAll(b, parsed, front), fp);
    }
  }

  lemma AllTaken(b: Book, parsed: map<Fingerprint, Fault>, order: seq<Fingerprint>, r: Book)
    requires Keyed(b.active) && Keyed(parsed) && b.events == []
    requires RepeatFree(order) && Elements(order) == parsed.Keys && (forall fp :: fp in order ==> fp in parsed)
    requires r == TakeAll(b, parsed, order)
    ensures TakenOver(b, parsed, parsed.Keys, r) == true && Keyed(r.active)
  {
    TakeAllIs(b, parsed, order);
    UpdatedKeyed(b.active, parsed, parsed.Keys);
  }

  function CountOne(b: Book, fp: Fingerprint): Book {
    if Count(b.absence, fp) + 1 < CONFIRMATIONS then b.(absence := b.absence[fp := Count(b.absence, fp) + 1])
    else if fp in b.active then
      Book(b.active - {fp}, b.absence - {fp}, b.events + [Event(Resolved, b.active[fp])])
    else b
  }

  function CountAll(b: Book, order: seq<Fingerprint>): Book {
    if order == [] then b else CountOne(CountAll(b, order[..|order| - 1]), order[|order| - 1])
  }

  ghost predicate CountedOver(b: Book, done: set<Fingerprint>, appeared: set<Fingerprint>, r: Book) {
    && r.active == Remaining(b.active, b.absence, done) && r.absence == Counted(b.absence, done) && Keyed(r.active)
    && Announces(r.events, Appeared, appeared) && Announces(r.events, Resolved, Twice(b.absence, done))
  }

  lemma CountOneIs(b: Book, done: set<Fingerprint>, appeared: set<Fingerprint>, r: Book, fp: Fingerprint)
    requires fp in b.active && fp !in done && CountedOver(b, done, appeared, r)
    ensures CountedOver(b, done + {fp}, appeared, CountOne(r, fp)) == true
  {
    RemainingNext(b.active, b.absence, done, fp);
    CountedNext(b.absence, done, fp);
    TwiceNext(b.absence, done, fp);
    if Count(b.absence, fp) + 1 >= CONFIRMATIONS {
      AnnounceOne(r.events, Event(Resolved, r.active[fp]), Resolved, Twice(b.absence, done));
      AnnounceOne(r.events, Event(Resolved, r.active[fp]), Appeared, appeared);
    }
  }

  lemma CountNone(b: Book)
    ensures Twice(b.absence, {}) == {} && Remaining(b.active, b.absence, {}) == b.active && Counted(b.absence, {}) == b.absence
  {
  }

  lemma TwiceNext(absence: map<Fingerprint, nat>, done: set<Fingerprint>, fp: Fingerprint)
    ensures Twice(absence, done + {fp}) == if Count(absence, fp) + 1 >= CONFIRMATIONS then Twice(absence, done) + {fp} else Twice(absence, done)
  {
  }

  lemma {:induction false} CountAllIs(b: Book, order: seq<Fingerprint>, appeared: set<Fingerprint>)
    requires Keyed(b.active) && Announces(b.events, Appeared, appeared) && Announces(b.events, Resolved, {})
    requires RepeatFree(order) && forall fp :: fp in order ==> fp in b.active
    ensures CountedOver(b, Elements(order), appeared, CountAll(b, order)) == true
  {
    if order == [] {
      CountNone(b);
    } else {
      var front, fp := order[..|order| - 1], order[|order| - 1];
      ElementsLast(order);
      CountAllIs(b, front, appeared);
      CountOneIs(b, Elements(front), appeared, CountAll(b, front), fp);
    }
  }

  lemma CarriesNext(events: seq<Event>, e: Event, kind: EventType, faults: map<Fingerprint, Fault>)
    requires Carries(events, kind, faults)
    requires e.kind == kind ==> e.fault.fingerprint in faults && e.fault == faults[e.fault.fingerprint]
    ensures Carries(events + [e], kind, faults) == true
  {
  }

  // What appears is announced with its report ...
  lemma {:induction false} TakenCarries(b: Book, parsed: map<Fingerprint, Fault>, order: seq<Fingerprint>)
    requires Keyed(parsed) && b.events == [] && forall fp :: fp in order ==> fp in parsed
    ensures Carries(TakeAll(b, parsed, order).events, Appeared, parsed) == true
    ensures Carries(TakeAll(b, parsed, order).events, Resolved, map[]) == true
  {
    if order != [] {
      var front, fp := order[..|order| - 1], order[|order| - 1];
      TakenCarries(b, parsed, front);
      var r := TakeAll(b, parsed, front);
      if fp !in r.active {
        CarriesNext(r.events, Event(Appeared, parsed[fp]), Appeared, parsed);
        CarriesNext(r.events, Event(Appeared, parsed[fp]), Resolved, map[]);
      }
    }
  }

  // ... and what is resolved with what was known of it.
  lemma {:induction false} CountedCarries(b: Book, order: seq<Fingerprint>, appeared: set<Fingerprint>, reports: map<Fingerprint, Fault>)
    requires Keyed(b.active) && Announces(b.events, Appeared, appeared) && Announces(b.events, Resolved, {})
    requires RepeatFree(order) && forall fp :: fp in order ==> fp in b.active
    requires Carries(b.events, Appeared, reports) == true && Carries(b.events, Resolved, map[]) == true
    ensures Carries(CountAll(b, order).events, Appeared, reports) == true && Carries(CountAll(b, order).events, Resolved, b.active) == true
  {
    if order != [] {
      var front, fp := order[..|order| - 1], order[|order| - 1];
      ElementsLast(order);
      CountedCarries(b, front, appeared, reports);
      CountAllIs(b, front, appeared);
      CountOneCarries(b, Elements(front), appeared, CountAll(b, front), fp, reports);
    }
  }

  lemma CountOneCarries(b: Book, done: set<Fingerprint>, appeared: set<Fingerprint>, r: Book, fp: Fingerprint,
                        reports: map<Fingerprint, Fault>)
    requires fp in b.active && fp !in done && CountedOver(b, done, appeared, r)
    requires Carries(r.events, Appeared, reports) && Carries(r.events, Resolved, b.active)
    ensures Carries(CountOne(r, fp).events, Appeared, reports) == true && Carries(CountOne(r, fp).events, Resolved, b.active) == true
  {
    RemainingNext(b.active, b.absence, done, fp);
    if Count(r.absence, fp) + 1 >= CONFIRMATIONS {
      CarriesNext(r.events, Event(Resolved, r.active[fp]), Resolved, b.active);
      CarriesNext(r.events, Event(Resolved, r.active[fp]), Appeared, reports);
    }
  }

  lemma {:induction false} CarriedIsAnnounced(events: seq<Event>, kind: EventType, i: nat)
    requires i < |events| && events[i].kind == kind
    ensures events[i].fault.fingerprint in Announced(events, kind)
  {
    if i < |events| - 1 {
      CarriedIsAnnounced(events[..|events| - 1], kind, i);
    }
  }

  // A resolved fault was not reported in this cycle, so it is announced as it was before.
  lemma CarriesBefore(before: Tracker, readings: seq<Reading>, events: seq<Event>)
    requires before.initialized && Announces(events, Resolved, Gone(before, readings))
    requires Carries(events, Resolved, Updated(before.active, Parsed(readings), Parsed(readings).Keys))
    ensures Carries(events, Resolved, before.active) == true
  {
    forall i | 0 <= i < |events| && events[i].kind == Resolved ensures events[i].fault.fingerprint in Gone(before, readings) {
      CarriedIsAnnounced(events, Resolved, i);
    }
  }

  lemma ListedNext(s: set<Fingerprint>, todo: set<Fingerprint>, order: seq<Fingerprint>, fp: Fingerprint)
    requires RepeatFree(order) && todo <= s && Elements(order) == s - todo && fp in todo
    ensures RepeatFree(order + [fp]) && Elements(order + [fp]) == s - (todo - {fp})
  {
    ElementsNext(order, fp);
    assert fp !in Elements(order);
  }

  method Listed(s: set<Fingerprint>) returns (order: seq<Fingerprint>)
    ensures RepeatFree(order) && Elements(order) == s
  {
    order := [];
    var todo := s;
    while todo != {}
      invariant RepeatFree(order) && todo <= s && Elements(order) == s - todo
      decreases |todo|
    {
      var fp :| fp in todo;
      ListedNext(s, todo, order, fp);
      todo, order := todo - {fp}, order + [fp];
    }
  }

  lemma ReadNext(readings: seq<Reading>, i: nat)
    requires i < |readings|
    ensures readings[..i + 1][..i] == readings[..i]
    ensures Read(readings[..i + 1]) == Read(readings[..i]) + if readings[i].Counts() then {readings[i].path} else {}
  {
  }

  class FaultTracker {
    var active: map<Fingerprint, Fault>
    var absence: map<Fingerprint, nat>
    var required: set<Path>
    var unverified: set<Fingerprint>
    var valid: bool
    var initialized: bool
    var store: Option<Store>
    var pending: bool

    ghost predicate Valid()
      reads this
    {
      Keyed(active)
    }

    ghost function Value(): Tracker
      reads this
    {
      Tracker(active, absence, required, unverified, valid, initialized, store, pending)
    }

    constructor ()
      ensures Valid() && Value() == FRESH_TRACKER
    {
      active, absence, required, unverified, valid, initialized, store := map[], map[], {}, {}, false, false, None;
      pending := false;
    }

    /** Restores the stored baseline; entries that cannot be read have been dropped already. */
    constructor Load(saved: Option<Store>)
      requires saved.Some? ==> Keyed(saved.value.active)
      ensures Valid() && Value() == Loaded(saved)
    {
      active, absence, required, unverified, valid, initialized, store := map[], map[], {}, {}, false, false, None;
      pending := false;
      if saved.Some? {
        active, initialized, store := saved.value.active, true, saved;
        if saved.value.required != {} {
          required := saved.value.required;
          var named := if saved.value.unverified.Missing? then Named({}) else saved.value.unverified;
          unverified := if named.Named? then set fp | fp in named.faults && fp in saved.value.active else saved.value.active.Keys;
        } else {
          unverified := saved.value.active.Keys;
        }
      }
    }

    method Serialize() returns (baseline: Store)
      ensures baseline == Serialized(Value())
    {
      baseline := Store(map fp | fp in active :: Kept(active[fp]), required, Named(unverified));
    }

    /** Writes the baseline at once; a write that was ordered need not happen any more. */
    method Flush()
      modifies `store, `pending
      ensures Value() == Flushed(old(Value()))
    {
      var baseline := Serialize();
      store, pending := Some(baseline), false;
    }

    /** The delayed write: it serializes when it happens, not when it was ordered. */
    method Write()
      modifies `store, `pending
      ensures Value() == Written(old(Value()))
    {
      if pending {
        Flush();
      }
    }

    /** Results of a polling cycle: a failed authoritative source casts doubt. */
    method RecordResults(results: seq<Reading>)
      modifies `absence, `valid
      ensures Value() == if exists i :: 0 <= i < |results| && results[i].active && !results[i].successful
                         then Doubted(old(Value())) else old(Value())
    {
      for i := 0 to |results|
        invariant Value() == if exists k :: 0 <= k < i && results[k].active && !results[k].successful
                             then Doubted(old(Value())) else old(Value())
      {
        if results[i].active && !results[i].successful {
          absence, valid := map[], false;
        }
      }
    }

    /** An authoritative source that could not be polled must not leave an all-clear. */
    method RecordDeferred(activeSources: seq<bool>)
      modifies `absence, `valid
      ensures Value() == if true in activeSources then Doubted(old(Value())) else old(Value())
    {
      for i := 0 to |activeSources|
        invariant Value() == if true in activeSources[..i] then Doubted(old(Value())) else old(Value())
      {
        assert activeSources[..i + 1] == activeSources[..i] + [activeSources[i]];
        if activeSources[i] {
          absence, valid := map[], false;
        }
      }
      assert activeSources[..|activeSources|] == activeSources;
    }

    method MarkUnavailable()
      modifies `absence, `valid
      ensures Value() == Doubted(old(Value()))
    {
      absence, valid := map[], false;
    }

    /** One cycle: complete success is required before a fault may be resolved. */
    method Process(readings: seq<Reading>) returns (events: seq<Event>)
      requires Valid()
      modifies this
      ensures Valid() && Value() == Processed(old(Value()), readings)
      ensures Announces(events, Appeared, New(old(Value()), readings)) == true
      ensures Announces(events, Resolved, Gone(old(Value()), readings)) == true
      ensures Carries(events, Appeared, Parsed(readings)) == true && Carries(events, Resolved, old(active)) == true
    {
      var parsed, invalid, sources := Gather(readings);
      ParsedIsKeyed(readings);
      ghost var before := Value();
      var complete, changed := Observe(parsed, invalid, sources, readings);
      ghost var observed := Value();
      if !initialized {
        FirstIsProcessed(before, readings, observed, complete, changed);
        active, initialized, events, pending := parsed, true, [], true;
        return;
      }
      events := Follow(parsed, complete, changed, before, readings);
    }

    // A later cycle changes the baseline, and orders a write if anything changed.
    method Follow(parsed: map<Fingerprint, Fault>, complete: bool, changed: bool, ghost before: Tracker, ghost readings: seq<Reading>)
      returns (events: seq<Event>)
      requires Valid() && Keyed(parsed) && before.initialized && parsed == Parsed(readings)
      requires IsObserved(before, readings, Value(), complete, changed) == true
      modifies `active, `absence, `pending
      ensures Valid() && Value() == Processed(before, readings)
      ensures Announces(events, Appeared, New(before, readings)) == true
      ensures Announces(events, Resolved, Gone(before, readings)) == true
      ensures Carries(events, Appeared, Parsed(readings)) == true && Carries(events, Resolved, before.active) == true
    {
      ghost var observed := Value();
      events := Update(parsed, complete, observed, before, readings);
      ghost var after := Value();
      LaterIsProcessed(before, readings, observed, complete, changed, after, events);
      OrderWrite(changed || events != []);
    }

    method OrderWrite(changed: bool)
      modifies `pending
      ensures Value() == old(Value()).(pending := old(pending) || changed)
    {
      if changed {
        pending := true;
      }
    }

    // Which sources and unverified faults this cycle settles, and whether it is complete.
    method Observe(parsed: map<Fingerprint, Fault>, invalid: nat, sources: set<Path>, ghost readings: seq<Reading>)
      returns (complete: bool, changed: bool)
      requires parsed == Parsed(readings) && invalid == Invalid(readings) && sources == Read(readings)
      modifies `required, `unverified, `valid, `absence
      ensures IsObserved(old(Value()), readings, Value(), complete, changed) == true
    {
      ghost var before := Value();
      changed := SettleSources(sources, parsed.Keys);
      complete := required != {} && required <= sources && invalid == 0 && unverified == {};
      Judge(complete, sources != {});
      ObservedAsComputed(before, readings, parsed, invalid, sources, Value(), complete, changed);
    }

    // A source once read stays required, and a fault seen again is verified.
    method SettleSources(sources: set<Path>, reported: set<Fingerprint>) returns (changed: bool)
      modifies `required, `unverified
      ensures Value() == old(Value()).(required := old(required) + sources, unverified := old(unverified) - reported)
      ensures changed <==> required != old(required) || unverified != old(unverified)
    {
      var previousSources, previousUnverified := required, unverified;
      required, unverified := required + sources, unverified - reported;
      changed := required != previousSources || unverified != previousUnverified;
    }

    // A cycle that read a source decides whether the evidence is complete.
    method Judge(complete: bool, read: bool)
      modifies `valid, `absence
      ensures Value() == old(Value()).(valid := if read then complete else old(valid),
                                       absence := if read && !complete then map[] else old(absence))
    {
      if read {
        valid := complete;
        if !complete {
          absence := map[];
        }
      }
    }

    // Takes over the reported faults and, in a complete cycle, counts the absent ones.
    method Update(parsed: map<Fingerprint, Fault>, complete: bool, ghost observed: Tracker, ghost before: Tracker,
                  ghost readings: seq<Reading>)
      returns (events: seq<Event>)
      requires Valid() && Keyed(parsed) && before.initialized && parsed == Parsed(readings) && Value() == observed
      requires exists changed :: IsObserved(before, readings, observed, complete, changed) == true
      modifies `active, `absence
      ensures Valid() && IsUpdated(before, readings, observed, Value(), events) == true
    {
      ghost var start := Book(active, absence, []);
      events := TakeOver(parsed);
      ghost var taken := Book(active, absence, events);
      if complete {
        TakenAnnounces(start, parsed, taken);
        events := CountAbsent(parsed.Keys, events, parsed.Keys - start.active.Keys, parsed);
        CountedIsUpdated(before, readings, observed, start, taken, Book(active, absence, events));
      } else {
        TakenIsUpdated(before, readings, observed, start, taken);
      }
    }

    static method Gather(readings: seq<Reading>) returns (parsed: map<Fingerprint, Fault>, invalid: nat, sources: set<Path>)
      ensures parsed == Parsed(readings) && invalid == Invalid(readings) && sources == Read(readings)
    {
      parsed, invalid, sources := map[], 0, {};
      for i := 0 to |readings|
        invariant parsed == Parsed(readings[..i]) && invalid == Invalid(readings[..i]) && sources == Read(readings[..i])
      {
        ReadNext(readings, i);
        var r := readings[i];
        if !r.Counts() {
          continue;
        }
        sources, invalid := sources + {r.path}, invalid + r.invalid;
        for j := 0 to |r.faults|
          invariant parsed == AddAll(Parsed(readings[..i]), r.faults[..j])
        {
          assert r.faults[..j + 1][..j] == r.faults[..j];
          parsed := Add(parsed, r.faults[j]);
        }
        assert r.faults[..|r.faults|] == r.faults;
      }
      assert readings[..|readings|] == readings;
    }

    // Takes over what was reported; a fault seen again is not absent.
    method TakeOver(parsed: map<Fingerprint, Fault>) returns (events: seq<Event>)
      requires Valid() && Keyed(parsed)
      modifies `active, `absence
      ensures Valid() && Taken(Book(old(active), old(absence), []), parsed, Book(active, absence, events)) == true
    {
      events := [];
      var order := Listed(parsed.Keys);
      assert forall fp :: fp in order ==> fp in Elements(order);
      ghost var book := Book(active, absence, []);
      for i := 0 to |order|
        invariant Book(active, absence, events) == TakeAll(book, parsed, order[..i])
      {
        assert order[..i + 1][..i] == order[..i];
        events := TakeFault(parsed, order[i], events);
      }
      assert order[..|order|] == order;
      AllTaken(book, parsed, order, Book(active, absence, events));
      TakenCarries(book, parsed, order);
    }

    method TakeFault(parsed: map<Fingerprint, Fault>, fp: Fingerprint, earlier: seq<Event>) returns (events: seq<Event>)
      requires fp in parsed
      modifies `active, `absence
      ensures Book(active, absence, events) == TakeOne(Book(old(active), old(absence), earlier), parsed, fp)
    {
      absence := absence - {fp};
      if fp in active {
        active, events := active[fp := Again(active[fp], parsed[fp])], earlier;
      } else {
        active, events := active[fp := parsed[fp]], earlier + [Event(Appeared, parsed[fp])];
      }
    }

    // Counts the absent faults of a complete cycle and resolves those counted twice.
    method CountAbsent(reported: set<Fingerprint>, earlier: seq<Event>, ghost appeared: set<Fingerprint>,
                       ghost reports: map<Fingerprint, Fault>)
      returns (events: seq<Event>)
      requires Valid() && Announces(earlier, Appeared, appeared) == true && Announces(earlier, Resolved, {}) == true
      requires Carries(earlier, Appeared, reports) == true && Carries(earlier, Resolved, map[]) == true
      modifies `active, `absence
      ensures AllCounted(Book(old(active), old(absence), earlier), reported, appeared, reports, Book(active, absence, events)) == true
    {
      events := earlier;
      var order := Listed(active.Keys - reported);
      ghost var book := Book(active, absence, earlier);
      CountAllOver(book, order, reported, appeared);
      AllActive(book, order, reported);
      CountedCarries(book, order, appeared, reports);
      for i := 0 to |order|
        invariant Book(active, absence, events) == CountAll(book, order[..i])
      {
        CountNext(book, order, i, reported, appeared);
        events := CountFault(order[i], events);
      }
      assert order[..|order|] == order;
    }

    method CountFault(fp: Fingerprint, earlier: seq<Event>) returns (events: seq<Event>)
      requires fp in active
      modifies `active, `absence
      ensures Book(active, absence, events) == CountOne(Book(old(active), old(absence), earlier), fp)
    {
      var count := Count(absence, fp) + 1;
      if count < CONFIRMATIONS {
        absence, events := absence[fp := count], earlier;
      } else {
        events := earlier + [Event(Resolved, active[fp])];
        active, absence := active - {fp}, absence - {fp};
      }
    }
  }

  // No event is emitted exactly when nothing appeared and nothing was resolved.
  lemma SilentExactly(events: seq<Event>, appeared: set<Fingerprint>, resolved: set<Fingerprint>)
    requires Announces(events, Appeared, appeared) && Announces(events, Resolved, resolved)
    ensures events == [] <==> appeared == {} && resolved == {}
  {
    EveryEventCounts(events);
  }

  lemma {:induction false} EveryEventCounts(events: seq<Event>)
    ensures Announcements(events, Appeared) + Announcements(events, Resolved) == |events|
  {
    if events != [] {
      EveryEventCounts(events[..|events| - 1]);
    }
  }

  // A fault not yet counted is still active.
  lemma CountNext(b: Book, order: seq<Fingerprint>, i: nat, reported: set<Fingerprint>, appeared: set<Fingerprint>)
    requires Keyed(b.active) == true && Announces(b.events, Appeared, appeared) == true && Announces(b.events, Resolved, {}) == true
    requires RepeatFree(order) == true && Elements(order) == b.active.Keys - reported && i < |order|
    ensures order[i] in CountAll(b, order[..i]).active
    ensures CountAll(b, order[..i + 1]) == CountOne(CountAll(b, order[..i]), order[i])
  {
    RepeatFreePrefix(order, i);
    RepeatFreePrefix(order, i + 1);
    AllActive(b, order, reported);
    CountAllIs(b, order[..i], appeared);
    assert order[..i + 1][..i] == order[..i];
    RemainingNext(b.active, b.absence, Elements(order[..i]), order[i]);
  }

  lemma AllActive(b: Book, order: seq<Fingerprint>, reported: set<Fingerprint>)
    requires Elements(order) == b.active.Keys - reported
    ensures forall fp :: fp in order ==> fp in b.active
  {
    assert forall fp :: fp in order ==> fp in Elements(order);
  }

  lemma CountAllOver(b: Book, order: seq<Fingerprint>, reported: set<Fingerprint>, appeared: set<Fingerprint>)
    requires Keyed(b.active) == true && Announces(b.events, Appeared, appeared) == true && Announces(b.events, Resolved, {}) == true
    requires RepeatFree(order) == true && Elements(order) == b.active.Keys - reported
    ensures CountedOver(b, b.active.Keys - reported, appeared, CountAll(b, order)) == true
  {
    AllActive(b, order, reported);
    CountAllIs(b, order, appeared);
  }

  /** The sources, unverified faults and evidence of a tracker that saw a cycle, before its faults are taken over. */
  ghost predicate IsObserved(before: Tracker, readings: seq<Reading>, observed: Tracker, complete: bool, changed: bool) {
    && complete == Complete(before, readings)
    && observed == before.(required := before.required + Read(readings), unverified := before.unverified - Parsed(readings).Keys,
                           valid := if Read(readings) != {} then complete else before.valid,
                           absence := if Read(readings) != {} && !complete then map[] else before.absence)
    && (changed <==> observed.required != before.required || observed.unverified != before.unverified)
  }

  lemma ObservedAsComputed(before: Tracker, readings: seq<Reading>, parsed: map<Fingerprint, Fault>, invalid: nat, sources: set<Path>,
                           observed: Tracker, complete: bool, changed: bool)
    requires parsed == Parsed(readings) && invalid == Invalid(readings) && sources == Read(readings)
    requires observed == before.(required := before.required + sources, unverified := before.unverified - parsed.Keys,
                                 valid := if sources != {} then complete else before.valid,
                                 absence := if sources != {} && !complete then map[] else before.absence)
    requires complete == (observed.required != {} && observed.required <= sources && invalid == 0 && observed.unverified == {})
    requires changed <==> observed.required != before.required || observed.unverified != before.unverified
    ensures IsObserved(before, readings, observed, complete, changed) == true
  {
    CompleteAsComputed(before, readings);
  }

  /** The faults and counts of this cycle are taken over, and the events announce what appeared and what was resolved. */
  ghost predicate IsUpdated(before: Tracker, readings: seq<Reading>, observed: Tracker, after: Tracker, events: seq<Event>) {
    && after == observed.(active := ActiveAfter(before, readings), absence := AbsenceAfter(before, readings))
    && Announces(events, Appeared, New(before, readings)) && Announces(events, Resolved, Gone(before, readings))
    && Carries(events, Appeared, Parsed(readings)) && Carries(events, Resolved, before.active)
  }

  /** The reports were taken over, and the events announce the new ones. */
  ghost predicate Taken(start: Book, parsed: map<Fingerprint, Fault>, taken: Book) {
    && TakenOver(start, parsed, parsed.Keys, taken)
    && Carries(taken.events, Appeared, parsed) && Carries(taken.events, Resolved, map[])
  }

  /** The faults not reported were counted, and the events announce the resolved ones. */
  ghost predicate AllCounted(taken: Book, reported: set<Fingerprint>, appeared: set<Fingerprint>, reports: map<Fingerprint, Fault>,
                             counted: Book) {
    && CountedOver(taken, taken.active.Keys - reported, appeared, counted)
    && Carries(counted.events, Appeared, reports) && Carries(counted.events, Resolved, taken.active)
  }

  lemma TakenAnnounces(start: Book, parsed: map<Fingerprint, Fault>, taken: Book)
    requires Taken(start, parsed, taken)
    ensures Carries(taken.events, Appeared, parsed) == true && Carries(taken.events, Resolved, map[]) == true
    ensures Announces(taken.events, Appeared, parsed.Keys - start.active.Keys) == true && Announces(taken.events, Resolved, {}) == true
  {
  }

  lemma TakenIsUpdated(before: Tracker, readings: seq<Reading>, observed: Tracker, start: Book, taken: Book)
    requires before.initialized && exists changed :: IsObserved(before, readings, observed, false, changed)
    requires start == Book(observed.active, observed.absence, []) && Taken(start, Parsed(readings), taken)
    ensures IsUpdated(before, readings, observed, observed.(active := taken.active, absence := taken.absence), taken.events) == true
  {
    TakenUpdates(before, readings, observed, start, taken);
    TakenTells(before, readings, observed, start, taken);
  }

  lemma TakenUpdates(before: Tracker, readings: seq<Reading>, observed: Tracker, start: Book, taken: Book)
    requires before.initialized && exists changed :: IsObserved(before, readings, observed, false, changed)
    requires start == Book(observed.active, observed.absence, []) && TakenOver(start, Parsed(readings), Parsed(readings).Keys, taken)
    ensures taken.active == ActiveAfter(before, readings) && taken.absence == AbsenceAfter(before, readings)
  {
    ProcessedAgrees(before, readings, observed.absence);
  }

  lemma TakenTells(before: Tracker, readings: seq<Reading>, observed: Tracker, start: Book, taken: Book)
    requires before.initialized && exists changed :: IsObserved(before, readings, observed, false, changed)
    requires start == Book(observed.active, observed.absence, []) && Taken(start, Parsed(readings), taken)
    ensures Announces(taken.events, Appeared, New(before, readings)) == true
    ensures Announces(taken.events, Resolved, Gone(before, readings)) == true
    ensures Carries(taken.events, Appeared, Parsed(readings)) == true && Carries(taken.events, Resolved, before.active) == true
  {
  }

  lemma CountedIsUpdated(before: Tracker, readings: seq<Reading>, observed: Tracker, start: Book, taken: Book, counted: Book)
    requires before.initialized && exists changed :: IsObserved(before, readings, observed, true, changed)
    requires start == Book(observed.active, observed.absence, []) && Taken(start, Parsed(readings), taken)
    requires AllCounted(taken, Parsed(readings).Keys, Parsed(readings).Keys - start.active.Keys, Parsed(readings), counted)
    ensures IsUpdated(before, readings, observed, observed.(active := counted.active, absence := counted.absence), counted.events) == true
  {
    ProcessedAgrees(before, readings, observed.absence);
    CarriesBefore(before, readings, counted.events);
  }

  lemma FirstIsProcessed(before: Tracker, readings: seq<Reading>, observed: Tracker, complete: bool, changed: bool)
    requires IsObserved(before, readings, observed, complete, changed) && !before.initialized
    ensures Processed(before, readings) == observed.(active := Parsed(readings), initialized := true, pending := true)
    ensures New(before, readings) == Gone(before, readings) == {}
    ensures Announces([], Appeared, {}) == Announces([], Resolved, {}) == true
  {
  }

  lemma LaterIsProcessed(before: Tracker, readings: seq<Reading>, observed: Tracker, complete: bool, changed: bool, after: Tracker,
                         events: seq<Event>)
    requires IsObserved(before, readings, observed, complete, changed) == true && before.initialized
    requires IsUpdated(before, readings, observed, after, events) == true
    ensures Processed(before, readings) == after.(pending := after.pending || changed || events != [])
    ensures Announces(events, Appeared, New(before, readings)) == true
    ensures Announces(events, Resolved, Gone(before, readings)) == true
    ensures Carries(events, Appeared, Parsed(readings)) == true && Carries(events, Resolved, before.active) == true
  {
    SilentExactly(events, New(before, readings), Gone(before, readings));
  }

  lemma ParsedIsKeyed(readings: seq<Reading>)
    ensures Keyed(Parsed(readings))
  {
    forall fp | fp in Parsed(readings) ensures Parsed(readings)[fp].fingerprint == fp {
      ParsedIsReported(readings, fp);
    }
  }

  lemma CompleteAsComputed(t: Tracker, readings: seq<Reading>)
    ensures Complete(t, readings) <==>
              && t.required + Read(readings) != {} && t.required + Read(readings) <= Read(readings) && Invalid(readings) == 0
              && t.unverified - Parsed(readings).Keys == {}
  {
    var pending := t.unverified - Parsed(readings).Keys;
    if pending == {} {
      forall fp | fp in t.unverified ensures fp in Parsed(readings).Keys {
        assert fp !in pending;
      }
    }
  }

  // The object's steps compose to the specified cycle.
  lemma ProcessedAgrees(t: Tracker, readings: seq<Reading>, counts: map<Fingerprint, nat>)
    requires t.initialized
    requires counts == if Read(readings) != {} && !Complete(t, readings) then map[] else t.absence
    ensures var parsed := Parsed(readings);
            var updated, left := Updated(t.active, parsed, parsed.Keys), counts - parsed.Keys;
            var absent := updated.Keys - parsed.Keys;
            if Complete(t, readings) then
              && Remaining(updated, left, absent) == ActiveAfter(t, readings)
              && Counted(left, absent) == AbsenceAfter(t, readings)
              && Twice(left, absent) == Gone(t, readings)
            else updated == ActiveAfter(t, readings) && left == AbsenceAfter(t, readings)
  {
    var parsed := Parsed(readings);
    var updated, left := Updated(t.active, parsed, parsed.Keys), counts - parsed.Keys;
    var absent := updated.Keys - parsed.Keys;
    assert absent == t.active.Keys - parsed.Keys;
    if Complete(t, readings) {
      GoneAgrees(t, readings, absent);
      ActiveAgrees(t, readings, updated, left, absent);
      AbsenceAgrees(t, readings, left, absent);
    }
  }

  lemma GoneAgrees(t: Tracker, readings: seq<Reading>, absent: set<Fingerprint>)
    requires t.initialized && Complete(t, readings) && absent == t.active.Keys - Parsed(readings).Keys
    ensures Twice(t.absence - Parsed(readings).Keys, absent) == Gone(t, readings)
  {
    forall fp | fp in absent ensures Count(t.absence - Parsed(readings).Keys, fp) == Count(t.absence, fp) {
    }
  }

  lemma ActiveAgrees(t: Tracker, readings: seq<Reading>, updated: map<Fingerprint, Fault>, left: map<Fingerprint, nat>, absent: set<Fingerprint>)
    requires t.initialized && Complete(t, readings) && absent == t.active.Keys - Parsed(readings).Keys
    requires updated == Updated(t.active, Parsed(readings), Parsed(readings).Keys)
    requires left == t.absence - Parsed(readings).Keys && Twice(left, absent) == Gone(t, readings)
    ensures Remaining(updated, left, absent) == ActiveAfter(t, readings)
  {
    forall fp ensures fp in Gone(t, readings) <==> fp in absent && Count(left, fp) + 1 >= CONFIRMATIONS {
      assert fp in Twice(left, absent) <==> fp in absent && Count(left, fp) + 1 >= CONFIRMATIONS;
    }
  }

  lemma AbsenceAgrees(t: Tracker, readings: seq<Reading>, left: map<Fingerprint, nat>, absent: set<Fingerprint>)
    requires t.initialized && Complete(t, readings) && absent == t.active.Keys - Parsed(readings).Keys
    requires left == t.absence - Parsed(readings).Keys && Twice(left, absent) == Gone(t, readings)
    ensures Counted(left, absent) == AbsenceAfter(t, readings)
  {
    forall fp ensures fp in Gone(t, readings) <==> fp in absent && Count(left, fp) + 1 >= CONFIRMATIONS {
      assert fp in Twice(left, absent) <==> fp in absent && Count(left, fp) + 1 >= CONFIRMATIONS;
    }
  }
}
