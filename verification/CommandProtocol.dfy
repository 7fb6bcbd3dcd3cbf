/** The command protocol between the API threads and the simulation thread:
    `Visualize/control/command_intake.py`, `command_executor.py` and `Visualize/runtime/command_queue.py`. */
module CommandProtocol {
  import opened Options
  import opened Registry
  import opened Tracking

  const DRAIN_LIMIT := 50

  const RECEIVED := Status(Received, NotStarted, None)
  const VALIDATED := Status(Validated, NotStarted, None)
  const QUEUED := Status(Queued, Waiting, None)
  const QUEUE_FULL := Status(Failed, NotStarted, Some("QUEUE_FULL"))
  const INVALID_COMMAND := Status(Failed, NotStarted, Some("INVALID_COMMAND"))

  /** What validation makes of a command: it passes, it is refused with an intake error, or it breaks. */
  datatype Verdict = Passes | Refused | Breaks

  /** How a handler ends; `Pending` is a forced phase that still has to show its yellow. */
  datatype Outcome = Applied | Pending | Raised

  datatype Config = Config(limits: Limits, capacity: nat)

  /** The shared state: records, the bounded queue, and the deadlines of forced phases in transition.
      The history lists what was ever enqueued and executed and counts the evictions of each id. */
  datatype State = State(
    records: Records, queue: seq<Id>, active: map<Id, real>,
    enqueued: seq<Id>, executed: seq<Id>, evicted: multiset<Id>)

  const START := State(map[], [], map[], [], [], multiset{})

  // ----- intake -----

  /** `queue.Queue(maxsize=0)` is unbounded. */
  predicate HasRoom(queue: seq<Id>, capacity: nat) {
    capacity == 0 || |queue| < capacity
  }

  function Registered(s: State, id: Id, status: Status, now: real, victims: set<Id>): State {
    s.(records := PutRecord(s.records, id, status, now, victims), evicted := s.evicted + multiset(victims))
  }

  /** `_update_status`: only a record that exists is changed. */
  function Noted(s: State, id: Id, status: Status, now: real): State {
    if id in s.records then s.(records := s.records[id := Rewrite(s.records[id], status, now)]) else s
  }

  function Enqueued(s: State, id: Id): State {
    s.(queue := s.queue + [id], enqueued := s.enqueued + [id])
  }

  function Dequeued(s: State): State
    requires s.queue != []
  {
    s.(queue := s.queue[1..], executed := s.executed + [s.queue[0]])
  }

  /** accept_command up to the enqueue. */
  function Open(s: State, id: Id, verdict: Verdict, now: real, victims: set<Id>, c: Config): State {
    var p := Registered(s, id, RECEIVED, now, victims);
    match verdict
    case Refused => p
    case Breaks => Noted(p, id, INVALID_COMMAND, now)
    case Passes =>
      var v := Noted(p, id, VALIDATED, now);
      if HasRoom(v.queue, c.capacity) then Enqueued(v, id)
      else Noted(v, id, QUEUE_FULL, now)
  }

  predicate Enqueues(s: State, verdict: Verdict, c: Config) {
    verdict == Passes && HasRoom(s.queue, c.capacity)
  }

  /** The last step of accept_command, after the enqueue: `registry.update`. */
  function MarkQueued(s: State, id: Id, now: real, victims: set<Id>): State {
    if id in s.records then Noted(s, id, QUEUED, now) else Registered(s, id, QUEUED, now, victims)
  }

  /** The whole call: a known id only gets its record back. */
  function Accept(s: State, id: Id, verdict: Verdict, now: real, victims: set<Id>, c: Config): State {
    if id in s.records then s
    else
      var o := Open(s, id, verdict, now, victims, c);
      if Enqueues(s, verdict, c) then MarkQueued(o, id, now, {}) else o
  }

  // ----- execution -----

  function Error(s: State, id: Id): Option<string> {
    if id in s.records then s.records[id].status.error else None
  }

  /** Taking the first command and on_command_start. */
  function Started(s: State, now: real, victims: set<Id>): State
    requires s.queue != []
  {
    var id := s.queue[0];
    var t := Dequeued(s);
    var p := if id in t.records then t else Registered(t, id, QUEUED, now, victims);
    Noted(p, id, Status(Applying, Executing, Error(p, id)), now)
  }

  function Finished(s: State, id: Id, outcome: Outcome, now: real, simTime: real): State {
    match outcome
    case Applied => Noted(s, id, Status(Completed, AppliedAtSumo, None), now).(active := s.active - {id})
    case Pending => Noted(s, id, Status(Applying, Transitioning, Error(s, id)), now).(active := s.active[id := simTime + TRANSITION_TIMEOUT])
    case Raised => Noted(s, id, Status(Failed, FailedAtRuntime, Some("RUNTIME")), now).(active := s.active - {id})
  }

  /** One turn of the drain loop. */
  function Pop(s: State, outcome: Outcome, now: real, simTime: real, victims: set<Id>): State {
    if s.queue == [] then s else Finished(Started(s, now, victims), s.queue[0], outcome, now, simTime)
  }

  /** A signal without an entry in `sights` cannot be seen. */
  function Settles(s: State, id: Id, sights: map<Id, Sight>, simTime: real): Fate {
    if id in s.active && id in sights then FateOf(s.active[id], sights[id], simTime) else Wait
  }

  function Settled(r: Record, fate: Fate, now: real): Record {
    match fate
    case Wait => r
    case Done => Rewrite(r, Status(Completed, AppliedAtSumo, None), now)
    case TimedOut => Rewrite(r, Status(Failed, FailedAtRuntime, Some("TRANSITION_TIMEOUT")), now)
  }

  /** CommandExecutionTracker.tick. */
  function Tick(s: State, sights: map<Id, Sight>, now: real, simTime: real): State {
    s.(records := map id | id in s.records :: Settled(s.records[id], Settles(s, id, sights, simTime), now),
       active := map id | id in s.active && Settles(s, id, sights, simTime) == Wait :: s.active[id])
  }

  // ----- runs -----

  datatype Event =
    | Submit(id: Id, verdict: Verdict, now: real, victims: set<Id>)
    | Take(outcome: Outcome, now: real, simTime: real, victims: set<Id>)
    | Watch(sights: map<Id, Sight>, now: real, simTime: real)

  function Step(s: State, e: Event, c: Config): State {
    match e
    case Submit(id, verdict, now, victims) => Accept(s, id, verdict, now, victims, c)
    case Take(outcome, now, simTime, victims) => Pop(s, outcome, now, simTime, victims)
    case Watch(sights, now, simTime) => Tick(s, sights, now, simTime)
  }

  /** The victims are those the registry picks. */
  ghost predicate Legal(s: State, e: Event, c: Config) {
    match e
    case Submit(id, _, now, victims) => PutEvicts(s.records, id, RECEIVED, now, c.limits, victims)
    case Take(_, now, _, victims) =>
      s.queue != [] ==> PutEvicts(s.records, s.queue[0], QUEUED, now, c.limits, victims)
    case Watch(_, _, _) => true
  }

  function Run(s: State, es: seq<Event>, c: Config): State {
    if es == [] then s else Step(Run(s, es[..|es| - 1], c), es[|es| - 1], c)
  }

  ghost predicate LegalRun(s: State, es: seq<Event>, c: Config) {
    es == [] || (LegalRun(s, es[..|es| - 1], c) && Legal(Run(s, es[..|es| - 1], c), es[|es| - 1], c))
  }

  // ----- the invariant -----

  /** Everything the state says about one id. */
  datatype Local = Local(record: Option<Record>, queued: nat, active: bool, enqueued: nat, evicted: nat)

  function About(s: State, id: Id): Local {
    Local(if id in s.records then Some(s.records[id]) else None, multiset(s.queue)[id], id in s.active,
          multiset(s.enqueued)[id], s.evicted[id])
  }

  /** A record's life says where its command is: QUEUED is in the queue, APPLYING is a forced phase in
      transition, and VALIDATED only shows while an intake call is `open` between its enqueue and its
      last write.  An id is enqueued at most once for every record it had, and a record that still
      says RECEIVED was never enqueued. */
  ghost predicate LocalOk(l: Local, open: bool) {
    && (match l.record
        case None => l.queued == 0 && !l.active && l.enqueued <= l.evicted
        case Some(r) =>
          && (r.status.life.Terminal() <==> r.terminalAt.Some?)
          && l.queued == (if r.status.life.Queued? || r.status.life.Validated? then 1 else 0)
          && (r.status.life.Validated? ==> open)
          && (l.active <==> r.status.life.Applying?)
          && l.enqueued <= l.evicted + if r.status.life.Received? then 0 else 1)
  }

  ghost predicate LogOk(s: State, c: Config) {
    s.enqueued == s.executed + s.queue && (c.capacity > 0 ==> |s.queue| <= c.capacity)
  }

  ghost predicate Inv(s: State, open: set<Id>, c: Config) {
    LogOk(s, c) && forall id :: LocalOk(About(s, id), id in open)
  }

  // ----- what each piece does to one id -----

  lemma AboutRegistered(s: State, id: Id, status: Status, now: real, victims: set<Id>, limits: Limits, k: Id)
    requires id !in s.records && PutEvicts(s.records, id, status, now, limits, victims) && !status.life.Terminal()
    ensures About(Registered(s, id, status, now, victims), k) ==
            (if k == id then About(s, k).(record := Some(NewRecord(status, now)))
             else if k in victims then About(s, k).(record := None, evicted := About(s, k).evicted + 1)
             else About(s, k))
    ensures k in victims ==> k != id && About(s, k).record.Some? && About(s, k).record.value.status.life.Terminal()
    ensures Registered(s, id, status, now, victims).queue == s.queue
  {
    hide AllGone;
    assert OldestFirst(s.records[id := NewRecord(status, now)], now, limits, victims);
  }

  lemma AboutNoted(s: State, id: Id, status: Status, now: real, k: Id)
    ensures Noted(s, id, status, now).queue == s.queue
    ensures About(Noted(s, id, status, now), k) ==
            var l := About(s, k);
            if k == id && l.record.Some? then l.(record := Some(Rewrite(l.record.value, status, now))) else l
  {
  }

  lemma CountAppend(xs: seq<Id>, x: Id, k: Id)
    ensures multiset(xs + [x])[k] == multiset(xs)[k] + if k == x then 1 else 0
  {
  }

  lemma CountFront(xs: seq<Id>, k: Id)
    requires xs != []
    ensures multiset(xs)[k] == multiset(xs[1..])[k] + if k == xs[0] then 1 else 0
  {
    assert xs == [xs[0]] + xs[1..];
  }

  lemma AboutEnqueued(s: State, id: Id, k: Id)
    ensures About(Enqueued(s, id), k) ==
            var l := About(s, k); if k == id then l.(queued := l.queued + 1, enqueued := l.enqueued + 1) else l
  {
    CountAppend(s.queue, id, k);
    CountAppend(s.enqueued, id, k);
  }

  lemma AboutDequeued(s: State, k: Id)
    requires s.queue != []
    ensures About(s, s.queue[0]).queued > 0
    ensures About(Dequeued(s), k) == var l := About(s, k); if k == s.queue[0] then l.(queued := l.queued - 1) else l
  {
    CountFront(s.queue, k);
    CountFront(s.queue, s.queue[0]);
  }

  // ----- every step keeps it -----

  lemma LocalFact(s: State, open: set<Id>, c: Config, k: Id)
    requires Inv(s, open, c)
    ensures LocalOk(About(s, k), k in open) && (About(s, k).record.Some? <==> k in s.records)
    ensures About(s, k).queued > 0 <==> k in s.queue
  {
  }

  /** The only ways forward for one id: its record's life advances, or an old terminal record is
      evicted; while a record is kept its command is not enqueued again. */
  ghost predicate Onward(a: Local, b: Local) {
    match (a.record, b.record)
    case (Some(r), Some(t)) => Forward(r, t) && b.evicted == a.evicted && b.enqueued == a.enqueued
    case (Some(r), None) => r.status.life.Terminal() && b.evicted == a.evicted + 1
    case (None, _) => b.evicted == a.evicted
  }

  ghost predicate Forward(r: Record, t: Record) {
    r.status.life.Rank() <= t.status.life.Rank() && (r.status.life.Terminal() ==> t.status.life == r.status.life)
  }

  lemma OpenLocal(s: State, id: Id, verdict: Verdict, now: real, victims: set<Id>, open: set<Id>, c: Config, k: Id)
    requires Inv(s, open, c) && id !in s.records && PutEvicts(s.records, id, RECEIVED, now, c.limits, victims)
    ensures var l := About(Open(s, id, verdict, now, victims, c), k);
            && LocalOk(l, k in open || (k == id && Enqueues(s, verdict, c)))
            && Onward(About(s, k), l)
            && (k == id ==> About(s, k).record.None? && l.record.Some?)
            && (k == id && Enqueues(s, verdict, c) ==> l.record == Some(Record(VALIDATED, None)))
  {
    hide About, PutEvicts, Registered, Noted, Enqueued, Inv;
    LocalFact(s, open, c, k);
    AboutRegistered(s, id, RECEIVED, now, victims, c.limits, k);
    var p := Registered(s, id, RECEIVED, now, victims);
    match verdict
    case Refused =>
    case Breaks =>
      AboutNoted(p, id, INVALID_COMMAND, now, k);
    case Passes =>
      var v := Noted(p, id, VALIDATED, now);
      AboutNoted(p, id, VALIDATED, now, k);
      AboutEnqueued(v, id, k);
      AboutNoted(v, id, QUEUE_FULL, now, k);
  }

  lemma AcceptLocal(s: State, id: Id, verdict: Verdict, now: real, victims: set<Id>, open: set<Id>, c: Config, k: Id)
    requires Inv(s, open, c) && PutEvicts(s.records, id, RECEIVED, now, c.limits, victims)
    ensures LocalOk(About(Accept(s, id, verdict, now, victims, c), k), k in open)
    ensures Onward(About(s, k), About(Accept(s, id, verdict, now, victims, c), k))
  {
    hide About, PutEvicts, Open, Noted, Inv;
    LocalFact(s, open, c, k);
    if id !in s.records {
      var o := Open(s, id, verdict, now, victims, c);
      OpenLocal(s, id, verdict, now, victims, open, c, k);
      OpenLocal(s, id, verdict, now, victims, open, c, id);
      RecordAbout(o, id);
      AboutNoted(o, id, QUEUED, now, k);
    }
  }

  lemma RecordAbout(s: State, k: Id)
    ensures About(s, k).record.Some? <==> k in s.records
    ensures k in s.records ==> About(s, k).record.value == s.records[k]
    ensures About(s, k).queued > 0 <==> k in s.queue
    ensures About(s, k).active <==> k in s.active
  {
  }

  lemma StartedLocal(s: State, now: real, victims: set<Id>, open: set<Id>, c: Config, k: Id)
    requires Inv(s, open, c) && s.queue != []
    ensures var l := About(Started(s, now, victims), k);
            if k == s.queue[0] then
              && About(s, k).record.Some? && Forward(About(s, k).record.value, Record(Status(Applying, Executing, None), None))
              && l.record.Some? && l.record.value.status.life.Applying? && l.record.value.terminalAt.None?
              && l == About(s, k).(queued := 0, record := l.record)
            else l == About(s, k)
  {
    hide About, Noted, Inv, Dequeued, Registered;
    var id := s.queue[0];
    var t := Dequeued(s);
    LocalFact(s, open, c, k);
    LocalFact(s, open, c, id);
    AboutDequeued(s, k);
    AboutDequeued(s, id);
    RecordAbout(t, id);
    AboutNoted(t, id, Status(Applying, Executing, Error(t, id)), now, k);
  }

  lemma FinishedLocal(s: State, id: Id, outcome: Outcome, now: real, simTime: real, k: Id)
    ensures var l, t := About(s, k), About(Finished(s, id, outcome, now, simTime), k);
            if k != id then t == l
            else
              && t == l.(record := t.record, active := outcome.Pending?)
              && match l.record
                 case None => t.record.None?
                 case Some(r) => t.record.Some?
                                 && t.record.value.status.life == (match outcome case Applied => Completed case Pending => Applying case Raised => Failed)
                                 && t.record.value.terminalAt.Some? == (!outcome.Pending? || r.terminalAt.Some?)
  {
    hide Noted;
    var status := match outcome
      case Applied => Status(Completed, AppliedAtSumo, None)
      case Pending => Status(Applying, Transitioning, Error(s, id))
      case Raised => Status(Failed, FailedAtRuntime, Some("RUNTIME"));
    AboutNoted(s, id, status, now, k);
  }

  lemma PopLocal(s: State, outcome: Outcome, now: real, simTime: real, victims: set<Id>, open: set<Id>, c: Config, k: Id)
    requires Inv(s, open, c)
    ensures LocalOk(About(Pop(s, outcome, now, simTime, victims), k), k in open)
    ensures Onward(About(s, k), About(Pop(s, outcome, now, simTime, victims), k))
  {
    hide About, Started, Finished, Inv;
    LocalFact(s, open, c, k);
    if s.queue != [] {
      StartedLocal(s, now, victims, open, c, k);
      FinishedLocal(Started(s, now, victims), s.queue[0], outcome, now, simTime, k);
    }
  }

  lemma TickLocal(s: State, sights: map<Id, Sight>, now: real, simTime: real, open: set<Id>, c: Config, k: Id)
    requires Inv(s, open, c)
    ensures LocalOk(About(Tick(s, sights, now, simTime), k), k in open)
    ensures Onward(About(s, k), About(Tick(s, sights, now, simTime), k))
  {
    LocalFact(s, open, c, k);
  }

  lemma StepLocal(s: State, e: Event, open: set<Id>, c: Config, k: Id)
    requires Inv(s, open, c) && Legal(s, e, c)
    ensures LocalOk(About(Step(s, e, c), k), k in open) && Onward(About(s, k), About(Step(s, e, c), k))
  {
    hide About, Accept, Pop, Tick, Inv, LocalOk, Onward, PutEvicts;
    match e
    case Submit(id, verdict, now, victims) => AcceptLocal(s, id, verdict, now, victims, open, c, k);
    case Take(outcome, now, simTime, victims) => PopLocal(s, outcome, now, simTime, victims, open, c, k);
    case Watch(sights, now, simTime) => TickLocal(s, sights, now, simTime, open, c, k);
  }

  lemma StepLog(s: State, e: Event, c: Config)
    requires LogOk(s, c)
    ensures LogOk(Step(s, e, c), c)
  {
    hide PutRecord, Rewrite, Noted, Registered;
    match e
    case Submit(id, verdict, now, victims) =>
      var p := Registered(s, id, RECEIVED, now, victims);
      var v := Noted(p, id, VALIDATED, now);
      RegisteredLog(s, id, RECEIVED, now, victims);
      NotedLog(p, id, INVALID_COMMAND, now);
      NotedLog(p, id, VALIDATED, now);
      NotedLog(v, id, QUEUE_FULL, now);
      NotedLog(Enqueued(v, id), id, QUEUED, now);
      assert s.enqueued + [id] == s.executed + (s.queue + [id]) by {
        assert (s.executed + s.queue) + [id] == s.executed + (s.queue + [id]);
      }
      RegisteredLog(Enqueued(v, id), id, QUEUED, now, {});
    case Take(outcome, now, simTime, victims) =>
      if s.queue != [] {
        var id, d := s.queue[0], Dequeued(s);
        assert s.executed + s.queue == (s.executed + [id]) + s.queue[1..];
        RegisteredLog(d, id, QUEUED, now, victims);
        var p := if id in d.records then d else Registered(d, id, QUEUED, now, victims);
        NotedLog(p, id, Status(Applying, Executing, Error(p, id)), now);
        FinishedLog(Started(s, now, victims), id, outcome, now, simTime);
      }
    case Watch(_, _, _) =>
  }

  lemma RegisteredLog(s: State, id: Id, status: Status, now: real, victims: set<Id>)
    ensures Queues(Registered(s, id, status, now, victims)) == Queues(s)
  {
  }

  lemma NotedLog(s: State, id: Id, status: Status, now: real)
    ensures Queues(Noted(s, id, status, now)) == Queues(s)
  {
  }

  lemma FinishedLog(s: State, id: Id, outcome: Outcome, now: real, simTime: real)
    ensures Queues(Finished(s, id, outcome, now, simTime)) == Queues(s)
  {
  }

  /** The queue and what went in and out of it. */
  function Queues(s: State): (seq<Id>, seq<Id>, seq<Id>) {
    (s.queue, s.enqueued, s.executed)
  }

  lemma StepKeepsInv(s: State, e: Event, open: set<Id>, c: Config)
    requires Inv(s, open, c) && Legal(s, e, c)
    ensures Inv(Step(s, e, c), open, c)
  {
    hide LocalOk, About, LogOk, Step, Legal;
    StepLog(s, e, c);
    forall k ensures LocalOk(About(Step(s, e, c), k), k in open) {
      StepLocal(s, e, open, c, k);
    }
  }

  lemma {:induction false} RunKeepsInv(s: State, es: seq<Event>, open: set<Id>, c: Config)
    requires Inv(s, open, c) && LegalRun(s, es, c)
    ensures Inv(Run(s, es, c), open, c)
  {
    hide Inv, Step, Legal;
    if es != [] {
      RunKeepsInv(s, es[..|es| - 1], open, c);
      StepKeepsInv(Run(s, es[..|es| - 1], c), es[|es| - 1], open, c);
    }
  }

  // ----- the guarantees -----

  lemma StartOk(c: Config)
    ensures Inv(START, {}, c)
  {
  }

  /** While calls are serialised and atomic, a record that is kept only moves forward, never leaves a
      terminal state, and its command is never enqueued a second time; a record is only lost by an
      eviction, and then it was terminal. */
  lemma {:induction false} RetainedMovesForward(s: State, es: seq<Event>, open: set<Id>, c: Config, k: Id)
    requires Inv(s, open, c) && LegalRun(s, es, c)
    ensures s.evicted[k] <= Run(s, es, c).evicted[k]
    ensures k in s.records && Run(s, es, c).evicted[k] == s.evicted[k] ==> Onward(About(s, k), About(Run(s, es, c), k))
    ensures k in s.records && Run(s, es, c).evicted[k] == s.evicted[k] ==> k in Run(s, es, c).records
  {
    hide About, Step, Legal, Inv, LocalOk;
    RecordAbout(s, k);
    if es != [] {
      var front := es[..|es| - 1];
      var before, e := Run(s, front, c), es[|es| - 1];
      RetainedMovesForward(s, front, open, c, k);
      RunKeepsInv(s, front, open, c);
      StepLocal(before, e, open, c, k);
      EvictedAbout(before, k);
      RecordAbout(before, k);
      EvictedAbout(Step(before, e, c), k);
      RecordAbout(Step(before, e, c), k);
    }
    EvictedAbout(s, k);
  }

  lemma EvictedAbout(s: State, k: Id)
    ensures About(s, k).evicted == s.evicted[k]
  {
  }

  /** Over every run each id is enqueued at most once more often than its record was evicted, and
      commands are executed in the order of the queue. */
  lemma EnqueuedOncePerRecord(es: seq<Event>, c: Config, k: Id)
    requires LegalRun(START, es, c)
    ensures var s := Run(START, es, c);
            && multiset(s.enqueued)[k] <= s.evicted[k] + (if k in s.records then 1 else 0)
            && s.executed <= s.enqueued && s.enqueued == s.executed + s.queue
            && multiset(s.queue)[k] <= 1
  {
    StartOk(c);
    RunKeepsInv(START, es, {}, c);
    assert LocalOk(About(Run(START, es, c), k), k in {});
  }

  /** A command whose record is not terminal but which is neither queued nor in transition. */
  predicate Stranded(s: State, k: Id) {
    k in s.records && !s.records[k].status.life.Terminal() && k !in s.queue && k !in s.active
  }

  lemma StrandedStep(s: State, e: Event, c: Config, k: Id)
    requires Stranded(s, k) && Legal(s, e, c)
    ensures Stranded(Step(s, e, c), k) && Step(s, e, c).records[k] == s.records[k]
  {
    RecordAbout(s, k);
    RecordAbout(Step(s, e, c), k);
    hide About, Noted, PutEvicts, Registered;
    match e
    case Submit(id, verdict, now, victims) =>
      if id !in s.records {
        AboutRegistered(s, id, RECEIVED, now, victims, c.limits, k);
        var p := Registered(s, id, RECEIVED, now, victims);
        var v := Noted(p, id, VALIDATED, now);
        AboutNoted(p, id, INVALID_COMMAND, now, k);
        AboutNoted(p, id, VALIDATED, now, k);
        AboutNoted(p, id, VALIDATED, now, id);
        AboutRegistered(s, id, RECEIVED, now, victims, c.limits, id);
        RecordAbout(v, id);
        AboutEnqueued(v, id, k);
        AboutNoted(v, id, QUEUE_FULL, now, k);
        AboutNoted(Enqueued(v, id), id, QUEUED, now, k);
      }
    case Take(outcome, now, simTime, victims) =>
      if s.queue != [] {
        var id, d := s.queue[0], Dequeued(s);
        AboutDequeued(s, k);
        RecordAbout(d, id);
        if id !in d.records {
          AboutRegistered(d, id, QUEUED, now, victims, c.limits, k);
        }
        var p := if id in d.records then d else Registered(d, id, QUEUED, now, victims);
        AboutNoted(p, id, Status(Applying, Executing, Error(p, id)), now, k);
        FinishedLocal(Started(s, now, victims), id, outcome, now, simTime, k);
      }
    case Watch(_, _, _) =>
  }

  /** Nothing ever changes a stranded record again: no event finishes it, evicts it or enqueues its
      command, and a retry only reads it. */
  lemma {:induction false} StrandedForever(s: State, es: seq<Event>, c: Config, k: Id)
    requires Stranded(s, k) && LegalRun(s, es, c)
    ensures Stranded(Run(s, es, c), k) && Run(s, es, c).records[k] == s.records[k]
  {
    hide Stranded, Step, Legal;
    if es != [] {
      StrandedForever(s, es[..|es| - 1], c, k);
      StrandedStep(Run(s, es[..|es| - 1], c), es[|es| - 1], c, k);
    }
  }

  /** In a run of atomic calls the stranded commands are exactly those whose record says RECEIVED. */
  lemma StrandedIsReceived(s: State, id: Id, c: Config)
    requires Inv(s, {}, c)
    ensures Stranded(s, id) <==> id in s.records && s.records[id].status.life.Received?
  {
    LocalFact(s, {}, c, id);
    RecordAbout(s, id);
  }

  /** A new command ends stranded exactly when validation refuses it with an intake error. */
  lemma AcceptStrandsIff(s: State, id: Id, verdict: Verdict, now: real, victims: set<Id>, c: Config)
    requires Inv(s, {}, c) && id !in s.records && PutEvicts(s.records, id, RECEIVED, now, c.limits, victims)
    ensures Stranded(Accept(s, id, verdict, now, victims, c), id) <==> verdict.Refused?
  {
    hide Stranded, Inv, Accept, PutEvicts;
    var e := Submit(id, verdict, now, victims);
    StepKeepsInv(s, e, {}, c);
    StrandedIsReceived(Step(s, e, c), id, c);
    AcceptedLife(s, id, verdict, now, victims, c);
  }

  lemma AcceptedLife(s: State, id: Id, verdict: Verdict, now: real, victims: set<Id>, c: Config)
    requires id !in s.records && PutEvicts(s.records, id, RECEIVED, now, c.limits, victims)
    ensures var t := Accept(s, id, verdict, now, victims, c);
            id in t.records && (t.records[id].status.life.Received? <==> verdict.Refused?)
  {
    AboutRegistered(s, id, RECEIVED, now, victims, c.limits, id);
    RecordAbout(Registered(s, id, RECEIVED, now, victims), id);
    hide Registered, PutEvicts, About;
  }

  /** The simulation thread may run between the enqueue and the write of QUEUED.  That late write
      keeps the protocol's invariant exactly when the command is still in the queue. */
  lemma LateWriteKeepsInvIff(s: State, id: Id, now: real, victims: set<Id>, c: Config)
    requires Inv(s, {id}, c)
    requires id !in s.records ==> PutEvicts(s.records, id, QUEUED, now, c.limits, victims)
    ensures Inv(MarkQueued(s, id, now, victims), {}, c) <==> id in s.queue
  {
    var t := MarkQueued(s, id, now, victims);
    NotedLog(s, id, QUEUED, now);
    RegisteredLog(s, id, QUEUED, now, victims);
    forall k ensures if k == id then LocalOk(About(t, k), false) <==> id in s.queue else LocalOk(About(t, k), false) {
      hide About, Noted, Registered, PutEvicts;
      LocalFact(s, {id}, c, k);
      AboutNoted(s, id, QUEUED, now, k);
      if id !in s.records {
        AboutRegistered(s, id, QUEUED, now, victims, c.limits, k);
      }
    }
    assert LocalOk(About(t, id), false) <==> id in s.queue;
  }

  /** For a record kept since the enqueue, the late write turns its life back exactly when the command
      has been taken from the queue; unless its phase is in transition the command is then stranded. */
  lemma LateWriteRegressesIff(s: State, es: seq<Event>, id: Id, now: real, victims: set<Id>, c: Config)
    requires Inv(s, {id}, c) && id in s.records && s.records[id].status.life.Validated? && LegalRun(s, es, c)
    requires Run(s, es, c).evicted[id] == s.evicted[id]
    ensures var t := Run(s, es, c);
            var u := MarkQueued(t, id, now, victims);
            && id in t.records && id in u.records
            && (u.records[id].status.life.Rank() < t.records[id].status.life.Rank() <==> id !in t.queue)
            && (id !in t.queue && id !in t.active ==> Stranded(u, id))
  {
    hide Run, LegalRun, Inv;
    RetainedMovesForward(s, es, {id}, c, id);
    RunKeepsInv(s, es, {id}, c);
    LocalFact(Run(s, es, c), {id}, c, id);
    RecordAbout(s, id);
    RecordAbout(Run(s, es, c), id);
  }

  /** The run that writes QUEUED over COMPLETED: enqueue, drain, then the late write. */
  lemma QueuedOverCompleted(id: Id, c: Config)
    requires c.limits.maxRecords > 0
    ensures var begun := Open(START, id, Passes, 0.0, {}, c);
            var drained := Step(begun, Take(Applied, 1.0, 1.0, {}), c);
            var late := MarkQueued(drained, id, 2.0, {});
            && PutEvicts(START.records, id, RECEIVED, 0.0, c.limits, {}) && Legal(begun, Take(Applied, 1.0, 1.0, {}), c)
            && id in begun.records && begun.records[id].status == VALIDATED
            && id in drained.records && drained.records[id].status.life == Completed
            && id in late.records && late.records[id].status == QUEUED && Stranded(late, id)
  {
    hide OldestFirst, AllGone;
    var begun := Open(START, id, Passes, 0.0, {}, c);
    assert begun.queue == [id] && begun.records == map[id := Record(VALIDATED, None)];
    var placed := START.records[id := NewRecord(RECEIVED, 0.0)];
    assert placed.Keys == {id};
    assert |placed| == |placed.Keys| == 1;
    assert placed - {} == placed;
    NothingGoes(placed, 0.0, c.limits);
  }

  /** Without serialised calls: two calls with one id that both found no record enqueue it twice. */
  lemma RacingCallsEnqueueTwice(id: Id, c: Config)
    requires HasRoom([id], c.capacity)
    ensures var first := Open(START, id, Passes, 0.0, {}, c);
            var second := Open(first, id, Passes, 0.0, {}, c);
            && Enqueues(START, Passes, c) && Enqueues(first, Passes, c)
            && second.queue == [id, id] && multiset(second.enqueued)[id] == 2 && second.evicted[id] == 0
            && !Inv(second, {id}, c)
  {
    hide Inv, LogOk, About;
    var first := Open(START, id, Passes, 0.0, {}, c);
    var second := Open(first, id, Passes, 0.0, {}, c);
    assert first.queue == first.enqueued == [id];
    assert second.queue == second.enqueued == [id, id] by { assert [id] + [id] == [id, id]; }
    NotTwice(second, id, c);
  }

  /** The protocol's invariant has no command in the queue twice. */
  lemma NotTwice(s: State, id: Id, c: Config)
    requires s.queue == [id, id]
    ensures !Inv(s, {id}, c)
  {
    hide LogOk;
    assert multiset(s.queue)[id] == 2;
    assert !LocalOk(About(s, id), true);
  }

  /** No forced phase outlives its deadline: the first tick after it that sees the signal settles the
      command, COMPLETED or FAILED with TRANSITION_TIMEOUT. */
  lemma DeadlineSettles(s: State, sights: map<Id, Sight>, now: real, simTime: real, c: Config, id: Id)
    requires Inv(s, {}, c) && id in s.active && id in sights
    ensures var t := Tick(s, sights, now, simTime);
            && id in t.records
            && (simTime > s.active[id] ==> id !in t.active && t.records[id].status == Status(Failed, FailedAtRuntime, Some("TRANSITION_TIMEOUT")))
            && (simTime <= s.active[id] ==>
                  (id !in t.active <==> !sights[id].pending && sights[id].atTarget)
                  && (t.records[id].status.life.Completed? <==> !sights[id].pending && sights[id].atTarget))
  {
    LocalFact(s, {}, c, id);
  }

  /** A forced phase that goes into transition has 30 seconds: as long as its target is pending, the tracker
      keeps it in transition up to then, and not beyond. */
  lemma TransitionHasItsTime(s: State, now: real, simTime: real, victims: set<Id>, sights: map<Id, Sight>, later: real, laterSim: real)
    requires s.queue != [] && s.queue[0] in sights && sights[s.queue[0]].pending
    ensures var id, t := s.queue[0], Pop(s, Pending, now, simTime, victims);
            id in t.active && (id in Tick(t, sights, later, laterSim).active <==> laterSim <= simTime + 30.0)
  {
  }

  // ----- the objects -----

  class CommandQueue {
    const capacity: nat
    var commands: seq<Id>
    /** History: everything that went in and out. */
    ghost var enqueued: seq<Id>
    ghost var executed: seq<Id>

    constructor (capacity: nat)
      ensures this.capacity == capacity && commands == [] && enqueued == [] && executed == []
    {
      this.capacity, commands, enqueued, executed := capacity, [], [], [];
    }

    /** put_nowait: false is QueueFullError. */
    method Enqueue(id: Id) returns (ok: bool)
      modifies this
      ensures ok == HasRoom(old(commands), capacity) && executed == old(executed)
      ensures commands == (if ok then old(commands) + [id] else old(commands))
      ensures enqueued == (if ok then old(enqueued) + [id] else old(enqueued))
    {
      ok := capacity == 0 || |commands| < capacity;
      if ok {
        commands, enqueued := commands + [id], enqueued + [id];
      }
    }

    method Dequeue() returns (id: Id)
      requires commands != []
      modifies this
      ensures id == old(commands)[0] && commands == old(commands)[1..]
      ensures enqueued == old(enqueued) && executed == old(executed) + [id]
    {
      id := commands[0];
      commands, executed := commands[1..], executed + [id];
    }
  }

  /** The engine's registry, queue and tracker, as both threads see them. */
  class ControlPlane {
    const registry: CommandRegistry
    const queue: CommandQueue
    var active: map<Id, real>
    ghost var evicted: multiset<Id>

    constructor (limits: Limits, capacity: nat)
      ensures View() == START && Cfg() == Config(limits, capacity)
      ensures fresh(registry) && fresh(queue)
    {
      registry := new CommandRegistry(limits);
      queue := new CommandQueue(capacity);
      active, evicted := map[], multiset{};
    }

    ghost function View(): State
      reads this`active, this`evicted, registry`records, queue
    {
      State(registry.records, queue.commands, active, queue.enqueued, queue.executed, evicted)
    }

    ghost function Cfg(): Config {
      Config(registry.limits, queue.capacity)
    }

    /** accept_command; None is a CommandIntakeError. */
    method AcceptCommand(id: Id, verdict: Verdict, now: real) returns (r: Option<Status>, ghost victims: set<Id>)
      modifies registry, queue, this`evicted
      ensures View() == Accept(old(View()), id, verdict, now, victims, Cfg())
      ensures Legal(old(View()), Submit(id, verdict, now, victims), Cfg())
      ensures match r
              case Some(status) => id in registry.records && registry.records[id].status == status
                                   && (id !in old(registry.records) ==> status == QUEUED)
              case None => id !in old(registry.records) && !Enqueues(old(View()), verdict, Cfg())
    {
      hide OldestFirst, AllGone;
      victims := {};
      if id in registry.records {
        return Some(registry.records[id].status), victims;
      }
      victims := registry.Put(id, RECEIVED, now);
      evicted := evicted + multiset(victims);
      SelfSurvives(old(registry.records), id, RECEIVED, now, registry.limits, victims);
      ghost var none;
      match verdict {
        case Refused =>
          r := None;
        case Breaks =>
          none := registry.Update(id, INVALID_COMMAND, now);
          r := None;
        case Passes =>
          none := registry.Update(id, VALIDATED, now);
          var ok := queue.Enqueue(id);
          if ok {
            none := registry.Update(id, QUEUED, now);
            r := Some(QUEUED);
          } else {
            none := registry.Update(id, QUEUE_FULL, now);
            r := None;
          }
      }
    }

    /** `_update_status`. */
    method UpdateStatus(id: Id, life: Life, execution: Execution, error: Option<string>, now: real)
      modifies registry
      ensures registry.records == Noted(old(View()), id, Status(life, execution, error), now).records
    {
      if id in registry.records {
        ghost var none := registry.Update(id, Status(life, execution, error), now);
      }
    }

    /** One turn of `drain`: take the first command, on_command_start, the handler, and then
        on_command_success or on_command_error. */
    method RunFirst(outcome: Outcome, now: real, simTime: real) returns (ghost victims: set<Id>)
      requires queue.commands != []
      modifies this, registry, queue
      ensures View() == Pop(old(View()), outcome, now, simTime, victims)
      ensures Legal(old(View()), Take(outcome, now, simTime, victims), Cfg())
    {
      hide OldestFirst, AllGone;
      var id := queue.Dequeue();
      victims := {};
      if id !in registry.records {
        victims := registry.Put(id, QUEUED, now);
        evicted := evicted + multiset(victims);
      }
      var error := if id in registry.records then registry.records[id].status.error else None;
      UpdateStatus(id, Applying, Executing, error, now);
      match outcome {
        case Applied =>
          UpdateStatus(id, Completed, AppliedAtSumo, None, now);
          active := active - {id};
        case Pending =>
          UpdateStatus(id, Applying, Transitioning, if id in registry.records then registry.records[id].status.error else None, now);
          active := active[id := simTime + TRANSITION_TIMEOUT];
        case Raised =>
          UpdateStatus(id, Failed, FailedAtRuntime, Some("RUNTIME"), now);
          active := active - {id};
      }
    }

    /** drain: the first 50 commands at most, in queue order; how each handler ends is its own choice. */
    method Drain(simTime: real) returns (processed: nat, ghost es: seq<Event>)
      modifies this, registry, queue
      ensures View() == Run(old(View()), es, Cfg()) && LegalRun(old(View()), es, Cfg()) && |es| == processed
      ensures processed == (if |old(queue.commands)| < DRAIN_LIMIT then |old(queue.commands)| else DRAIN_LIMIT)
      ensures queue.executed == old(queue.executed) + old(queue.commands)[..processed]
      ensures queue.commands == old(queue.commands)[processed..]
    {
      hide Pop, Legal, Run, LegalRun, Accept, Tick;
      processed, es := 0, [];
      RunNothing(View(), Cfg());
      while processed < DRAIN_LIMIT && queue.commands != []
        invariant processed <= DRAIN_LIMIT && processed <= |old(queue.commands)| && |es| == processed
        invariant View() == Run(old(View()), es, Cfg()) && LegalRun(old(View()), es, Cfg())
        invariant queue.executed == old(queue.executed) + old(queue.commands)[..processed]
        invariant queue.commands == old(queue.commands)[processed..]
      {
        var outcome: Outcome := *;
        var now: real := *;
        ghost var before := View();
        ghost var victims := RunFirst(outcome, now, simTime);
        ghost var e := Take(outcome, now, simTime, victims);
        PopQueues(before, outcome, now, simTime, victims);
        RunAppend(old(View()), es, e, Cfg());
        es := es + [e];
        processed := processed + 1;
      }
    }

    /** tick: every forced phase in transition whose signal can be seen. */
    method TrackTick(sights: map<Id, Sight>, now: real, simTime: real)
      modifies registry, this`active
      ensures View() == Tick(old(View()), sights, now, simTime)
    {
      hide Settles, Partly;
      var todo, done := active.Keys, {};
      PartlyNone(View(), sights, now, simTime);
      while todo != {}
        invariant todo <= active.Keys && active == old(active)
        invariant done == SettledIds(old(View()), todo, sights, simTime)
        invariant registry.records == Partly(old(View()), todo, sights, now, simTime)
        decreases |todo|
      {
        var id :| id in todo;
        PartlyNext(old(View()), todo, id, sights, now, simTime);
        var gone := TrackOne(id, active[id], sights, now, simTime);
        if gone {
          done := done + {id};
        }
        todo := todo - {id};
      }
      PartlyAll(old(View()), sights, now, simTime);
      active := active - done;
    }

    method TrackOne(id: Id, deadline: real, sights: map<Id, Sight>, now: real, simTime: real) returns (gone: bool)
      modifies registry
      ensures var fate := if id in sights then FateOf(deadline, sights[id], simTime) else Wait;
              && gone == (fate != Wait)
              && registry.records == (if id in old(registry.records)
                                      then old(registry.records)[id := Settled(old(registry.records)[id], fate, now)]
                                      else old(registry.records))
    {
      gone := false;
      if id in sights {
        if simTime > deadline {
          UpdateStatus(id, Failed, FailedAtRuntime, Some("TRANSITION_TIMEOUT"), now);
          gone := true;
        } else if !sights[id].pending && sights[id].atTarget {
          UpdateStatus(id, Completed, AppliedAtSumo, None, now);
          gone := true;
        }
      }
    }
  }

  /** The records while a tick still has `todo` to look at. */
  ghost function Partly(s: State, todo: set<Id>, sights: map<Id, Sight>, now: real, simTime: real): Records {
    map id | id in s.records :: if id in todo then s.records[id] else Settled(s.records[id], Settles(s, id, sights, simTime), now)
  }

  ghost function SettledIds(s: State, todo: set<Id>, sights: map<Id, Sight>, simTime: real): set<Id> {
    set id | id in s.active && id !in todo && Settles(s, id, sights, simTime) != Wait
  }

  lemma PartlyNone(s: State, sights: map<Id, Sight>, now: real, simTime: real)
    ensures Partly(s, s.active.Keys, sights, now, simTime) == s.records
    ensures SettledIds(s, s.active.Keys, sights, simTime) == {}
  {
  }

  lemma PartlyNext(s: State, todo: set<Id>, id: Id, sights: map<Id, Sight>, now: real, simTime: real)
    requires todo <= s.active.Keys && id in todo
    ensures var fate := if id in sights then FateOf(s.active[id], sights[id], simTime) else Wait;
            var p := Partly(s, todo, sights, now, simTime);
            && Partly(s, todo - {id}, sights, now, simTime) ==
               (if id in p then p[id := Settled(p[id], fate, now)] else p)
            && SettledIds(s, todo - {id}, sights, simTime) ==
               (if fate != Wait then SettledIds(s, todo, sights, simTime) + {id} else SettledIds(s, todo, sights, simTime))
  {
    hide Settled, FateOf;
  }

  lemma PartlyAll(s: State, sights: map<Id, Sight>, now: real, simTime: real)
    ensures Tick(s, sights, now, simTime) ==
            s.(records := Partly(s, {}, sights, now, simTime), active := s.active - SettledIds(s, {}, sights, simTime))
  {
    hide Settled, FateOf;
    assert Tick(s, sights, now, simTime).records == Partly(s, {}, sights, now, simTime);
    assert Tick(s, sights, now, simTime).active == s.active - SettledIds(s, {}, sights, simTime);
  }

  lemma SelfSurvives(records: Records, id: Id, status: Status, now: real, limits: Limits, victims: set<Id>)
    requires id !in records && PutEvicts(records, id, status, now, limits, victims) && !status.life.Terminal()
    ensures id !in victims
  {
  }

  lemma RunNothing(s: State, c: Config)
    ensures Run(s, [], c) == s && LegalRun(s, [], c)
  {
  }

  lemma RunAppend(s: State, es: seq<Event>, e: Event, c: Config)
    requires LegalRun(s, es, c) && Legal(Run(s, es, c), e, c)
    ensures LegalRun(s, es + [e], c) && Run(s, es + [e], c) == Step(Run(s, es, c), e, c)
  {
    assert (es + [e])[..|es|] == es;
  }

  lemma PopQueues(s: State, outcome: Outcome, now: real, simTime: real, victims: set<Id>)
    requires s.queue != []
    ensures Queues(Pop(s, outcome, now, simTime, victims)) == (s.queue[1..], s.enqueued, s.executed + [s.queue[0]])
  {
    hide Noted, Registered;
    var id, d := s.queue[0], Dequeued(s);
    RegisteredLog(d, id, QUEUED, now, victims);
    var p := if id in d.records then d else Registered(d, id, QUEUED, now, victims);
    NotedLog(p, id, Status(Applying, Executing, Error(p, id)), now);
    FinishedLog(Started(s, now, victims), id, outcome, now, simTime);
  }
}
