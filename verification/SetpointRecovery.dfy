/**
  The short recovery series for manual setpoints (coordinator.py): background tasks that sleep, take the
  update lock and read one missing value. Every method is one step of the event loop, the code between
  two awaits; the loop may run them in any order that their preconditions allow.
  On `P(x) == true` in contracts see Common.dfy.
 */
module SetpointRecovery {
  import opened Common

  const MAX_READS: nat := 3

  /** A heating circuit; it has one operation mode and one manual setpoint. */
  datatype Circuit = Circuit(name: string)

  type TaskId = nat

  /** What the snapshots in hand say about a circuit. */
  datatype Sight = Sight(modeFresh: bool, modeManual: bool, targetKnown: bool, targetFresh: bool) {
    predicate ManualActive() { modeFresh && modeManual }

    predicate Recovered() { targetFresh || (modeFresh && !modeManual) }
  }

  datatype Phase = Created | Sleeping | Reading(sight: Sight) | Done

  datatype Task = Task(circuit: Circuit, phase: Phase, cancelled: bool, sent: nat) {
    predicate Live() { !cancelled && !phase.Done? }
  }

  /** The update lock: free, held by a poll or a control write, or by a recovery task. */
  datatype Lock = Free | Other | By(task: TaskId)

  /** What a targeted read returned. `local` errors (403, 404, 406) let the series go on. */
  datatype Reply = Failed | Success | LocalError | OtherError

  /** A series began; an unknown target was reserved in the budget of paths; a read was sent; the target or another mode was seen. */
  datatype Event = Began(circuit: Circuit) | Reserved(circuit: Circuit) | ReadSent(circuit: Circuit) | EpisodeEnded(circuit: Circuit)

  /** The reads sent for a circuit in its current episode. */
  function ReadsSince(log: seq<Event>, c: Circuit): nat {
    if log == [] then 0
    else
      var last := log[|log| - 1];
      if last == EpisodeEnded(c) then 0
      else ReadsSince(log[..|log| - 1], c) + if last == ReadSent(c) then 1 else 0
  }

  lemma ReadsNext(log: seq<Event>, e: Event)
    ensures forall c :: ReadsSince(log + [e], c) ==
              if e == EpisodeEnded(c) then 0 else ReadsSince(log, c) + if e == ReadSent(c) then 1 else 0
  {
    assert (log + [e])[..|log|] == log;
  }

  /** A series began, and the episode has not ended since. */
  ghost predicate InEpisode(log: seq<Event>, c: Circuit) {
    exists i :: 0 <= i < |log| && log[i] == Began(c) && StaysOpen(log, i, c)
  }

  /** The unknown target was reserved in this episode. */
  ghost predicate IsReserved(log: seq<Event>, c: Circuit) {
    exists i :: 0 <= i < |log| && log[i] == Reserved(c) && StaysOpen(log, i, c)
  }

  ghost predicate StaysOpen(log: seq<Event>, i: nat, c: Circuit) { forall j :: i <= j < |log| ==> log[j] != EpisodeEnded(c) }

  lemma EpisodeNext(log: seq<Event>, e: Event)
    ensures forall c :: InEpisode(log + [e], c) <==> e == Began(c) || (InEpisode(log, c) && e != EpisodeEnded(c))
    ensures forall c :: IsReserved(log + [e], c) <==> e == Reserved(c) || (IsReserved(log, c) && e != EpisodeEnded(c))
  {
    var longer := log + [e];
    assert longer[|log|] == e && longer[..|log|] == log;
    forall c ensures InEpisode(longer, c) <==> e == Began(c) || (InEpisode(log, c) && e != EpisodeEnded(c)) {
      BeganNext(log, e, c);
    }
    forall c ensures IsReserved(longer, c) <==> e == Reserved(c) || (IsReserved(log, c) && e != EpisodeEnded(c)) {
      ReservedNext(log, e, c);
    }
  }

  lemma OpenNext(log: seq<Event>, e: Event, i: nat, c: Circuit)
    requires i < |log|
    ensures StaysOpen(log + [e], i, c) <==> StaysOpen(log, i, c) && e != EpisodeEnded(c)
  {
    assert (log + [e])[|log|] == e;
    forall j | i <= j < |log| ensures (log + [e])[j] == log[j] {
    }
    if StaysOpen(log + [e], i, c) {
      forall j | i <= j < |log| ensures log[j] != EpisodeEnded(c) {
        assert (log + [e])[j] == log[j];
      }
    }
  }

  lemma BeganNext(log: seq<Event>, e: Event, c: Circuit)
    ensures InEpisode(log + [e], c) <==> e == Began(c) || (InEpisode(log, c) && e != EpisodeEnded(c))
  {
    var longer := log + [e];
    assert longer[|log|] == e;
    if i :| 0 <= i < |longer| && longer[i] == Began(c) && StaysOpen(longer, i, c) && i < |log| {
      OpenNext(log, e, i, c);
    }
    if i :| 0 <= i < |log| && log[i] == Began(c) && StaysOpen(log, i, c) && e != EpisodeEnded(c) {
      OpenNext(log, e, i, c);
      assert longer[i] == Began(c);
    }
    assert e == Began(c) ==> StaysOpen(longer, |log|, c);
  }

  lemma ReservedNext(log: seq<Event>, e: Event, c: Circuit)
    ensures IsReserved(log + [e], c) <==> e == Reserved(c) || (IsReserved(log, c) && e != EpisodeEnded(c))
  {
    var longer := log + [e];
    assert longer[|log|] == e;
    if i :| 0 <= i < |longer| && longer[i] == Reserved(c) && StaysOpen(longer, i, c) && i < |log| {
      OpenNext(log, e, i, c);
    }
    if i :| 0 <= i < |log| && log[i] == Reserved(c) && StaysOpen(log, i, c) && e != EpisodeEnded(c) {
      OpenNext(log, e, i, c);
      assert longer[i] == Reserved(c);
    }
    assert e == Reserved(c) ==> StaysOpen(longer, |log|, c);
  }

  /** A series begins only between episodes, and reads are sent only within one. */
  ghost predicate WellRun(log: seq<Event>) {
    forall n {:trigger log[n]} :: 0 <= n < |log| ==>
      && (log[n].Began? ==> !InEpisode(log[..n], log[n].circuit))
      && (log[n].ReadSent? ==> InEpisode(log[..n], log[n].circuit))
  }

  lemma WellRunNext(log: seq<Event>, e: Event)
    requires WellRun(log) && (e.Began? ==> !InEpisode(log, e.circuit)) && (e.ReadSent? ==> InEpisode(log, e.circuit))
    ensures WellRun(log + [e])
  {
    var longer := log + [e];
    forall n | 0 <= n < |longer|
      ensures longer[n].Began? ==> !InEpisode(longer[..n], longer[n].circuit)
      ensures longer[n].ReadSent? ==> InEpisode(longer[..n], longer[n].circuit)
    {
      if n < |log| {
        assert longer[..n] == log[..n] && longer[n] == log[n];
      } else {
        assert longer[..n] == log && longer[n] == e;
      }
    }
  }

  // Between two series of a circuit the first episode has ended: its target, or another mode, was seen.
  lemma OneSeriesInEpisode(log: seq<Event>, i: nat, j: nat, c: Circuit) returns (k: nat)
    requires WellRun(log) && i < j < |log| && log[i] == log[j] == Began(c)
    ensures i < k < j && log[k] == EpisodeEnded(c)
  {
    assert log[..j][i] == Began(c);
    k :| i <= k < j && log[..j][k] == EpisodeEnded(c);
  }

  /** In no episode are more than three reads sent. */
  ghost predicate Bounded(log: seq<Event>) {
    forall n, c {:trigger ReadsSince(log[..n], c)} :: 0 <= n <= |log| ==> ReadsSince(log[..n], c) <= MAX_READS
  }

  lemma BoundedNext(log: seq<Event>, e: Event)
    requires Bounded(log) && forall c :: ReadsSince(log + [e], c) <= MAX_READS
    ensures Bounded(log + [e])
  {
    var longer := log + [e];
    forall n, c | 0 <= n <= |longer| ensures ReadsSince(longer[..n], c) <= MAX_READS {
      if n <= |log| {
        assert longer[..n] == log[..n];
      } else {
        assert longer[..n] == longer;
      }
    }
  }

  function CountReads(log: seq<Event>, i: nat, j: nat, c: Circuit): nat
    requires i <= j <= |log|
  {
    if i == j then 0 else CountReads(log, i, j - 1, c) + if log[j - 1] == ReadSent(c) then 1 else 0
  }

  // Within one episode, anywhere in a run, at most three targeted reads are sent.
  lemma {:induction false} EpisodeIsShort(log: seq<Event>, i: nat, j: nat, c: Circuit)
    requires Bounded(log) && i <= j <= |log| && forall k :: i <= k < j ==> log[k] != EpisodeEnded(c)
    ensures CountReads(log, i, j, c) <= ReadsSince(log[..j], c) <= MAX_READS
  {
    if i < j {
      EpisodeIsShort(log, i, j - 1, c);
      assert log[..j][..j - 1] == log[..j - 1];
    }
  }

  /** The bookkeeping of one coordinator and the event loop's tasks. */
  datatype State = State(closed: bool, attempted: set<Circuit>, candidates: set<Circuit>, tasks: map<Circuit, TaskId>,
                         pool: map<TaskId, Task>, nextId: TaskId, lock: Lock)

  /** The series registered for a circuit is a live one. */
  ghost predicate RegisteredOk(s: State, c: Circuit)
    requires c in s.tasks
  {
    s.tasks[c] in s.pool && s.pool[s.tasks[c]].circuit == c && s.pool[s.tasks[c]].Live() && c in s.attempted
  }

  /** A live series is the registered one; `running` may have taken itself off the register just now. */
  ghost predicate TaskOk(s: State, t: TaskId, running: Option<TaskId>)
    requires t in s.pool
  {
    var task := s.pool[t];
    && (task.Live() && running != Some(t) ==> task.circuit in s.tasks && s.tasks[task.circuit] == t)
    && (task.phase.Reading? <==> s.lock == By(t))
    && (task.phase.Reading? && !task.cancelled ==> task.phase.sight.ManualActive() && !task.phase.sight.targetFresh)
    && task.sent <= MAX_READS && (task.phase.Created? || task.phase.Sleeping? ==> task.sent < MAX_READS)
    && t < s.nextId
  }

  ghost predicate CountOk(s: State, log: seq<Event>, c: Circuit) {
    && ReadsSince(log, c) <= MAX_READS
    && (c in s.tasks ==> s.tasks[c] in s.pool && ReadsSince(log, c) == s.pool[s.tasks[c]].sent)
    && (!s.closed && c !in s.attempted ==> ReadsSince(log, c) == 0)
    && (!s.closed ==> (c in s.attempted <==> InEpisode(log, c)) && (c in s.candidates <==> IsReserved(log, c)))
  }

  /** What every step of every interleaving keeps. */
  ghost predicate Sound(s: State, log: seq<Event>, running: Option<TaskId>) {
    && (forall c {:trigger RegisteredOk(s, c)} :: c in s.tasks ==> RegisteredOk(s, c))
    && (forall t {:trigger TaskOk(s, t, running)} :: t in s.pool ==> TaskOk(s, t, running))
    && (forall c :: CountOk(s, log, c))
    && (s.lock.By? ==> s.lock.task in s.pool)
    && (s.closed ==> s.tasks == map[])
    && Bounded(log) && WellRun(log)
  }

  // At most one series of a circuit is live.
  lemma OneLiveSeries(s: State, log: seq<Event>, a: TaskId, b: TaskId)
    requires Sound(s, log, None)
    requires a in s.pool && b in s.pool && s.pool[a].Live() && s.pool[b].Live() && s.pool[a].circuit == s.pool[b].circuit
    ensures a == b
  {
    assert TaskOk(s, a, None) && TaskOk(s, b, None);
  }

  function NewSeries(s: State, c: Circuit): State {
    s.(attempted := s.attempted + {c}, tasks := s.tasks[c := s.nextId],
       pool := s.pool[s.nextId := Task(c, Created, false, 0)], nextId := s.nextId + 1)
  }

  lemma NewSeriesSound(s: State, log: seq<Event>, running: Option<TaskId>, c: Circuit)
    requires Sound(s, log, running) && !s.closed && c !in s.attempted
    ensures Sound(NewSeries(s, c), log + [Began(c)], running)
    ensures Starts(s, c, NewSeries(s, c))
  {
    var n, longer := NewSeries(s, c), log + [Began(c)];
    assert s.nextId in s.pool ==> TaskOk(s, s.nextId, running);
    assert c in s.tasks ==> RegisteredOk(s, c);
    forall t | t in n.pool ensures TaskOk(n, t, running) {
      assert t in s.pool ==> TaskOk(s, t, running);
    }
    forall d | d in n.tasks ensures RegisteredOk(n, d) {
      assert d in s.tasks ==> RegisteredOk(s, d);
    }
    EpisodeNext(log, Began(c));
    ReadsNext(log, Began(c));
    assert CountOk(s, log, c);
    forall d ensures CountOk(n, longer, d) {
      assert CountOk(s, log, d);
      assert d in s.tasks ==> RegisteredOk(s, d);
    }
    forall d ensures ReadsSince(longer, d) <= MAX_READS {
      assert CountOk(n, longer, d);
    }
    BoundedNext(log, Began(c));
    WellRunNext(log, Began(c));
  }

  /** One more series lives, for this circuit, and has sent nothing; everything else stays. */
  ghost predicate Starts(s: State, c: Circuit, n: State) {
    && n.closed == s.closed && n.candidates == s.candidates && n.lock == s.lock
    && (forall d :: d in n.attempted <==> d in s.attempted || d == c)
    && exists t: TaskId :: t !in s.pool && n.pool == s.pool[t := Task(c, Created, false, 0)] && n.tasks == s.tasks[c := t]
  }

  /** Takes a circuit's series off the register and cancels it, unless it is the running one. */
  function Taken(s: State, c: Circuit, running: Option<TaskId>): State {
    s.(attempted := s.attempted - {c}, candidates := s.candidates - {c}, tasks := s.tasks - {c},
       pool := if c in s.tasks && s.tasks[c] in s.pool && running != Some(s.tasks[c])
               then s.pool[s.tasks[c] := s.pool[s.tasks[c]].(cancelled := true)] else s.pool)
  }

  lemma TakenSound(s: State, log: seq<Event>, running: Option<TaskId>, c: Circuit)
    requires Sound(s, log, running)
    ensures Sound(Taken(s, c, running), log + [EpisodeEnded(c)], running)
    ensures Cancels(s, c, running, Taken(s, c, running))
  {
    var n, longer := Taken(s, c, running), log + [EpisodeEnded(c)];
    assert c in s.tasks ==> RegisteredOk(s, c);
    forall t | t in n.pool ensures TaskOk(n, t, running) {
      assert TaskOk(s, t, running);
    }
    forall d | d in n.tasks ensures RegisteredOk(n, d) {
      assert RegisteredOk(s, d);
    }
    ReadsNext(log, EpisodeEnded(c));
    EpisodeNext(log, EpisodeEnded(c));
    WellRunNext(log, EpisodeEnded(c));
    forall d ensures CountOk(n, longer, d) {
      assert CountOk(s, log, d);
      assert d in s.tasks ==> RegisteredOk(s, d);
    }
    forall d ensures ReadsSince(longer, d) <= MAX_READS {
      assert CountOk(n, longer, d);
    }
    BoundedNext(log, EpisodeEnded(c));
  }

  /** The series of this circuit end, except the calling one; everything else stays. */
  ghost predicate Cancels(s: State, c: Circuit, running: Option<TaskId>, n: State) {
    && n.closed == s.closed && n.lock == s.lock && n.pool.Keys == s.pool.Keys
    && (forall d :: d in n.attempted <==> d in s.attempted && d != c)
    && (forall d :: d in n.candidates <==> d in s.candidates && d != c)
    && (forall d :: d in n.tasks <==> d in s.tasks && d != c) && (forall d :: d in n.tasks ==> n.tasks[d] == s.tasks[d])
    && forall t :: t in s.pool ==>
         && n.pool[t].circuit == s.pool[t].circuit && n.pool[t].phase == s.pool[t].phase && n.pool[t].sent == s.pool[t].sent
         && (n.pool[t].Live() <==> s.pool[t].Live() && (s.pool[t].circuit != c || running == Some(t)))
  }

  /** One series makes a step: all others stay, and so does what is known of the circuits. */
  ghost predicate Steps(s: State, t: TaskId, n: State) {
    && n.closed == s.closed && n.attempted == s.attempted && n.candidates == s.candidates
    && n.pool.Keys == s.pool.Keys && forall u :: u in s.pool && u != t ==> n.pool[u] == s.pool[u]
  }

  /** A series ends; it only ever removes itself from the register. */
  function Finished(s: State, t: TaskId): State
    requires t in s.pool
  {
    s.(pool := s.pool[t := s.pool[t].(phase := Done)], lock := if s.lock == By(t) then Free else s.lock,
       tasks := if s.pool[t].circuit in s.tasks && s.tasks[s.pool[t].circuit] == t then s.tasks - {s.pool[t].circuit} else s.tasks)
  }

  lemma FinishedSound(s: State, log: seq<Event>, t: TaskId)
    requires t in s.pool && Sound(s, log, Some(t))
    ensures Sound(Finished(s, t), log, None)
    ensures Steps(s, t, Finished(s, t)) && Finished(s, t).pool[t] == s.pool[t].(phase := Done)
    ensures Finished(s, t).lock == if s.pool[t].phase.Reading? then Free else s.lock
    ensures forall c :: c in Finished(s, t).tasks <==> c in s.tasks && s.tasks[c] != t
    ensures forall c :: c in Finished(s, t).tasks ==> Finished(s, t).tasks[c] == s.tasks[c]
  {
    var n := Finished(s, t);
    assert TaskOk(s, t, Some(t));
    forall c | c in s.tasks ensures RegisteredOk(s, c) {
    }
    forall u | u in n.pool ensures TaskOk(n, u, None) {
      assert TaskOk(s, u, Some(t));
    }
    forall d | d in n.tasks ensures RegisteredOk(n, d) {
      assert RegisteredOk(s, d);
    }
    forall d ensures CountOk(n, log, d) {
      assert CountOk(s, log, d);
    }
  }

  // A registered series goes to sleep, first or after a fruitless read.
  lemma AsleepSound(s: State, log: seq<Event>, t: TaskId, running: Option<TaskId>)
    requires t in s.pool && s.pool[t].Live() && s.pool[t].sent < MAX_READS && Sound(s, log, running)
    ensures Sound(Asleep(s, t), log, running)
    ensures Steps(s, t, Asleep(s, t)) && Asleep(s, t).pool[t] == s.pool[t].(phase := Sleeping) && Asleep(s, t).tasks == s.tasks
    ensures Asleep(s, t).lock == if s.pool[t].phase.Reading? then Free else s.lock
  {
    var n := Asleep(s, t);
    assert TaskOk(s, t, running);
    forall u | u in n.pool ensures TaskOk(n, u, running) {
      assert TaskOk(s, u, running);
    }
    forall d | d in n.tasks ensures RegisteredOk(n, d) {
      assert RegisteredOk(s, d);
    }
    forall d ensures CountOk(n, log, d) {
      assert CountOk(s, log, d);
    }
  }

  function Asleep(s: State, t: TaskId): State
    requires t in s.pool
  {
    s.(pool := s.pool[t := s.pool[t].(phase := Sleeping)], lock := if s.lock == By(t) then Free else s.lock)
  }

  function Sending(s: State, t: TaskId, sight: Sight): State
    requires t in s.pool
  {
    s.(pool := s.pool[t := s.pool[t].(phase := Reading(sight), sent := s.pool[t].sent + 1)], lock := By(t))
  }

  lemma SendingSound(s: State, log: seq<Event>, t: TaskId, sight: Sight)
    requires t in s.pool && s.pool[t].Live() && s.pool[t].phase.Sleeping? && s.lock == Free
    requires Sound(s, log, None) && sight.ManualActive() && !sight.targetFresh
    ensures Sound(Sending(s, t, sight), log + [ReadSent(s.pool[t].circuit)], None)
    ensures Steps(s, t, Sending(s, t, sight)) && Sending(s, t, sight).tasks == s.tasks && Sending(s, t, sight).lock == By(t)
    ensures Sending(s, t, sight).pool[t] == Task(s.pool[t].circuit, Reading(sight), false, s.pool[t].sent + 1)
  {
    var n, c := Sending(s, t, sight), s.pool[t].circuit;
    var longer := log + [ReadSent(c)];
    assert TaskOk(s, t, None);
    forall u | u in n.pool ensures TaskOk(n, u, None) {
      assert TaskOk(s, u, None);
    }
    forall d | d in n.tasks ensures RegisteredOk(n, d) {
      assert RegisteredOk(s, d);
    }
    assert RegisteredOk(s, c);
    ReadsNext(log, ReadSent(c));
    EpisodeNext(log, ReadSent(c));
    assert CountOk(s, log, c);
    WellRunNext(log, ReadSent(c));
    forall d ensures CountOk(n, longer, d) {
      assert CountOk(s, log, d);
      assert d in s.tasks ==> RegisteredOk(s, d);
    }
    forall d ensures ReadsSince(longer, d) <= MAX_READS {
      assert CountOk(n, longer, d);
    }
    BoundedNext(log, ReadSent(c));
  }

  /** The integration is unloaded: every registered series is cancelled. */
  function Closed(s: State): State {
    s.(closed := true, attempted := {}, candidates := {}, tasks := map[],
       pool := map t | t in s.pool ::
                 if s.pool[t].circuit in s.tasks && s.tasks[s.pool[t].circuit] == t then s.pool[t].(cancelled := true) else s.pool[t])
  }

  lemma ClosedSound(s: State, log: seq<Event>)
    requires Sound(s, log, None)
    ensures Sound(Closed(s), log, None)
    ensures Closed(s).closed && Closed(s).attempted == {} && Closed(s).candidates == {} && Closed(s).tasks == map[]
    ensures Closed(s).lock == s.lock && Closed(s).pool.Keys == s.pool.Keys
    ensures forall t :: t in s.pool ==> !Closed(s).pool[t].Live() && Closed(s).pool[t].phase == s.pool[t].phase
  {
    var n := Closed(s);
    forall t | t in n.pool ensures TaskOk(n, t, None) && !n.pool[t].Live() {
      assert TaskOk(s, t, None);
    }
    forall d ensures CountOk(n, log, d) {
      assert CountOk(s, log, d);
    }
  }

  lemma RelaxRunning(s: State, log: seq<Event>, t: TaskId)
    requires Sound(s, log, None)
    ensures Sound(s, log, Some(t))
  {
    forall u | u in s.pool ensures TaskOk(s, u, Some(t)) {
      assert TaskOk(s, u, None);
    }
  }

  /** The target is fresh, or the circuit freshly in another mode. */
  ghost predicate IsOver(sight: Sight) { sight.targetFresh || (sight.modeFresh && !sight.modeManual) }

  /** The circuit is freshly in manual mode without a fresh target, which is known or fits the budget of paths. */
  ghost predicate IsMissing(sight: Sight, reserved: bool) {
    sight.modeFresh && sight.modeManual && !sight.targetFresh && (sight.targetKnown || reserved)
  }

  /** A series starts only for a missing target of a circuit known to be in manual mode, once in an episode. */
  ghost function Queued(s: State, c: Circuit, sight: Sight, reserved: bool, running: Option<TaskId>): State {
    if s.closed then s
    else if IsOver(sight) then Taken(s, c, running)
    else if !IsMissing(sight, reserved) then s
    else
      var known := if sight.targetKnown then s else s.(candidates := s.candidates + {c});
      if c in s.attempted then known else NewSeries(known, c)
  }

  /** What one sight of a circuit adds to the log. */
  ghost function Noted(log: seq<Event>, c: Circuit, sight: Sight, reserved: bool): seq<Event> {
    if IsOver(sight) then [EpisodeEnded(c)]
    else if !IsMissing(sight, reserved) then []
    else (if sight.targetKnown then [] else [Reserved(c)]) + if InEpisode(log, c) then [] else [Began(c)]
  }

  /** What the snapshots say after a targeted read. */
  function After(sight: Sight, reply: Reply): Sight {
    if reply == Success then sight.(targetKnown := true, targetFresh := true) else sight
  }

  class Recovery {
    var state: State
    ghost var log: seq<Event>

    ghost predicate Valid()
      reads this
    {
      Sound(state, log, None) == true
    }

    constructor ()
      ensures Valid() && state == State(false, {}, {}, map[], map[], 0, Free) && log == []
    {
      state, log := State(false, {}, {}, map[], map[], 0, Free), [];
    }

    // What one sight of a circuit leads to: an episode ends, a series of reads begins, or nothing. `running` is the
    // series that saw it, if one did; `reserved` says that an unknown target fits the budget of paths.
    method Queue(c: Circuit, sight: Sight, reserved: bool, running: Option<TaskId>)
      requires Sound(state, log, running)
      modifies this
      ensures Sound(state, log, running)
      ensures state == Queued(old(state), c, sight, reserved, running)
      ensures log == old(log) + if old(state).closed then [] else Noted(old(log), c, sight, reserved)
      ensures running.Some? && running.value in old(state.pool) ==>
                running.value in state.pool && state.pool[running.value] == old(state.pool)[running.value]
    {
      if state.closed {
        return;
      }
      if sight.Recovered() {
        Reset(c, running);
        return;
      }
      if !sight.ManualActive() {
        return;
      }
      if !sight.targetKnown {
        if !reserved {
          return;
        }
        ReserveSound(state, log, running, c);
        state, log := state.(candidates := state.candidates + {c}), log + [Reserved(c)];
      }
      assert CountOk(old(state), old(log), c);
      if c in state.attempted {
        return;
      }
      NewSeriesSound(state, log, running, c);
      assert state.nextId in state.pool ==> TaskOk(state, state.nextId, running);
      state, log := NewSeries(state, c), log + [Began(c)];
    }

    // Ends the episode: the registered series is cancelled, unless it is the one that calls.
    method Reset(c: Circuit, running: Option<TaskId>)
      requires Sound(state, log, running)
      modifies this
      ensures state == Taken(old(state), c, running) && log == old(log) + [EpisodeEnded(c)] && Sound(state, log, running)
    {
      TakenSound(state, log, running, c);
      state, log := Taken(state, c, running), log + [EpisodeEnded(c)];
    }

    // The end of a series, also of a cancelled one.
    method Finish(t: TaskId)
      requires t in state.pool && Sound(state, log, Some(t))
      modifies `state
      ensures Valid() && state == Finished(old(state), t)
    {
      FinishedSound(state, log, t);
      state := Finished(state, t);
    }

    /** A poll or a control write, holding the lock, has applied results to the circuit's snapshots. */
    method ApplyOther(c: Circuit, sight: Sight, reserved: bool)
      requires Valid() && state.lock == Other
      modifies this
      ensures Valid() && state == Queued(old(state), c, sight, reserved, None)
      ensures log == old(log) + if old(state).closed then [] else Noted(old(log), c, sight, reserved)
    {
      Queue(c, sight, reserved, None);
    }

    method AcquireOther()
      requires Valid() && state.lock == Free
      modifies `state
      ensures Valid() && state == old(state).(lock := Other)
    {
      LockSound(state, log, Other);
      state := state.(lock := Other);
    }

    method ReleaseOther()
      requires Valid() && state.lock == Other
      modifies `state
      ensures Valid() && state == old(state).(lock := Free)
    {
      LockSound(state, log, Free);
      state := state.(lock := Free);
    }

    /** A series begins and goes to sleep. */
    method Start(t: TaskId)
      requires Valid() && t in state.pool && state.pool[t].phase.Created? && !state.pool[t].cancelled
      modifies `state
      ensures Valid() && state == Asleep(old(state), t)
    {
      assert TaskOk(state, t, None);
      AsleepSound(state, log, t, None);
      state := Asleep(state, t);
    }

    /** A sleeping series wakes with the lock free, and reads unless that became pointless or the cloud is to be spared. */
    method Wake(t: TaskId, sight: Sight, spare: bool)
      requires Valid() && t in state.pool && state.pool[t].phase.Sleeping? && !state.pool[t].cancelled && state.lock == Free
      modifies this
      ensures Valid()
      ensures if old(state).closed || !sight.modeFresh || !sight.modeManual || sight.targetFresh || spare
              then state == Finished(old(state), t) && log == old(log)
              else state == Sending(old(state), t, sight) && log == old(log) + [ReadSent(old(state).pool[t].circuit)]
    {
      if state.closed || !sight.ManualActive() || sight.targetFresh || spare {
        RelaxRunning(state, log, t);
        Finish(t);
        return;
      }
      SendingSound(state, log, t, sight);
      state, log := Sending(state, t, sight), log + [ReadSent(state.pool[t].circuit)];
    }

    /** The reply to a targeted read. A series goes on only after a local error, and not beyond its last read. */
    method Receive(t: TaskId, reply: Reply, reserved: bool)
      requires Valid() && t in state.pool && state.pool[t].phase.Reading? && !state.pool[t].cancelled
      modifies this
      ensures Valid() && state.lock == Free
      ensures t in state.pool && (state.pool[t].Live() <==> reply == LocalError && ReadsSince(old(log), old(state).pool[t].circuit) < 3)
      ensures reply == Failed ==> state == Finished(old(state), t) && log == old(log)
      ensures reply == Success ==> log == old(log) + [EpisodeEnded(old(state).pool[t].circuit)]
      ensures reply == LocalError || reply == OtherError ==> Reaches(old(log), old(state).pool[t], reserved, log)
      ensures var task := old(state).pool[t];
              var queued := if reply == Failed then old(state)
                            else Queued(old(state), task.circuit, After(task.phase.sight, reply), reserved, Some(t));
              t in queued.pool && state == if reply == LocalError && task.sent < MAX_READS then Asleep(queued, t) else Finished(queued, t)
    {
      var task := state.pool[t];
      var c := task.circuit;
      assert TaskOk(state, t, None) && RegisteredOk(state, c) && CountOk(state, log, c);
      RelaxRunning(state, log, t);
      if reply != Failed {
        var sight := task.phase.sight;
        Queue(c, After(sight, reply), reserved, Some(t));
      }
      if reply == LocalError && task.sent < MAX_READS {
        Continue(t);
      } else {
        Finish(t);
      }
    }

    method Continue(t: TaskId)
      requires t in state.pool && state.pool[t].Live() && state.pool[t].sent < MAX_READS && state.lock == By(t)
      requires Sound(state, log, Some(t)) && state.pool[t].circuit in state.tasks && state.tasks[state.pool[t].circuit] == t
      modifies `state
      ensures Valid() && state == Asleep(old(state), t)
    {
      AsleepSound(state, log, t, Some(t));
      state := Asleep(state, t);
      RestoreRunning(state, log, t);
    }

    /** The event loop delivers a cancellation at the await where the series was suspended. */
    method DeliverCancel(t: TaskId)
      requires Valid() && t in state.pool && state.pool[t].cancelled && !state.pool[t].phase.Done?
      modifies `state
      ensures Valid() && state == Finished(old(state), t)
      ensures forall c :: c in old(state).tasks && old(state).tasks[c] != t ==> c in state.tasks && state.tasks[c] == old(state).tasks[c]
    {
      RelaxRunning(state, log, t);
      FinishedSound(state, log, t);
      state := Finished(state, t);
    }

    /** Unloading the integration does not wait for the lock. */
    method Unload()
      requires Valid()
      modifies `state
      ensures Valid() && state == Closed(old(state)) && forall t :: t in state.pool ==> !state.pool[t].Live()
    {
      ClosedSound(state, log);
      state := Closed(state);
    }
  }

  /** A fruitless read leaves the episode as it is; an unknown target is reserved again, if it fits. */
  ghost predicate Reaches(log: seq<Event>, task: Task, reserved: bool, after: seq<Event>)
    requires task.phase.Reading?
  {
    after == log + if !task.phase.sight.targetKnown && reserved then [Reserved(task.circuit)] else []
  }

  lemma ReserveSound(s: State, log: seq<Event>, running: Option<TaskId>, c: Circuit)
    requires Sound(s, log, running)
    ensures Sound(s.(candidates := s.candidates + {c}), log + [Reserved(c)], running)
  {
    var n, longer := s.(candidates := s.candidates + {c}), log + [Reserved(c)];
    forall t | t in n.pool ensures TaskOk(n, t, running) {
      assert TaskOk(s, t, running);
    }
    forall d | d in n.tasks ensures RegisteredOk(n, d) {
      assert RegisteredOk(s, d);
    }
    EpisodeNext(log, Reserved(c));
    ReadsNext(log, Reserved(c));
    forall d ensures CountOk(n, longer, d) {
      assert CountOk(s, log, d);
    }
    forall d ensures ReadsSince(longer, d) <= MAX_READS {
      assert CountOk(n, longer, d);
    }
    BoundedNext(log, Reserved(c));
    WellRunNext(log, Reserved(c));
  }

  lemma LockSound(s: State, log: seq<Event>, lock: Lock)
    requires Sound(s, log, None) && !s.lock.By? && !lock.By?
    ensures Sound(s.(lock := lock), log, None)
  {
    var n := s.(lock := lock);
    forall t | t in n.pool ensures TaskOk(n, t, None) {
      assert TaskOk(s, t, None);
    }
    forall d | d in n.tasks ensures RegisteredOk(n, d) {
      assert RegisteredOk(s, d);
    }
    forall d ensures CountOk(n, log, d) {
      assert CountOk(s, log, d);
    }
  }

  lemma RestoreRunning(s: State, log: seq<Event>, t: TaskId)
    requires Sound(s, log, Some(t)) && t in s.pool && s.pool[t].circuit in s.tasks && s.tasks[s.pool[t].circuit] == t
    ensures Sound(s, log, None)
  {
    forall u | u in s.pool ensures TaskOk(s, u, None) {
      assert TaskOk(s, u, Some(t));
    }
  }
}
