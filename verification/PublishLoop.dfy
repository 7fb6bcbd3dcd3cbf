/** The publishing part of the main loop in `Visualize/app/traci_runner.py`: one bounded queue that
    may refuse, one held cycle, a gate that may flip between any two reads, and backpressure. */
module PublishLoop {
  import opened Options

  datatype Cycle = Cycle(number: nat, simTime: real)

  datatype Config = Config(interval: real, maxLag: real, resumeLag: real, resumeMaxDepth: nat)

  /** Everything one iteration reads from outside, in the order it is read. */
  datatype Env = Env(
    gateTop: bool, faulted: bool, degraded: bool, queueFull: bool, depth: nat, lag: real, age: real,
    acceptFlush: bool,
    stepTime: real, asapRequested: bool,
    gateLate: bool, faultedLate: bool, acceptRetry: bool, captureFails: bool, acceptNew: bool)

  /** The loop variables, and the history: cycles handed to the publisher, and cycles captured with
      the gate on and off. */
  datatype State = State(
    sequence: nat, pending: Option<Cycle>, backpressure: bool, lastPublish: real, asap: bool, steps: nat,
    handed: seq<Cycle>, capturedOn: seq<Cycle>, capturedOff: seq<Cycle>)

  const START := State(0, None, false, -1000000000.0, false, 0, [], [], [])

  predicate ShouldPause(s: State, e: Env, c: Config) {
    if !e.gateTop then false
    else if s.backpressure then
      !(!e.faulted && !e.degraded && s.pending.None?
        && (e.depth == 0 || (e.lag < c.resumeLag && e.depth <= c.resumeMaxDepth)))
    else if e.faulted || e.degraded then true
    else if s.pending.Some? && e.queueFull then true
    else if s.pending.None? && e.depth == 0 then false
    else e.lag > c.maxLag || e.age > c.maxLag
  }

  /** The held cycle goes to the publisher. */
  function HandOver(s: State): State
    requires s.pending.Some?
  {
    s.(handed := s.handed + [s.pending.value], lastPublish := s.pending.value.simTime, pending := None)
  }

  function Paused(s: State, e: Env): State {
    var t := s.(backpressure := true);
    if t.pending.Some? && e.acceptFlush then HandOver(t) else t
  }

  function Stepped(s: State, e: Env): State {
    s.(backpressure := false, steps := s.steps + 1, asap := s.asap || e.asapRequested)
  }

  function Capture(s: State, e: Env): State {
    var t := s.(sequence := s.sequence + 1);
    var cycle := Cycle(t.sequence, e.stepTime);
    if e.captureFails then t
    else if !e.gateLate then t.(capturedOff := t.capturedOff + [cycle], lastPublish := e.stepTime, asap := false)
    else
      var u := t.(capturedOn := t.capturedOn + [cycle], pending := Some(cycle), asap := false);
      if e.acceptNew then HandOver(u) else u
  }

  function Publish(s: State, e: Env): State {
    if e.gateLate && s.pending.Some? then
      if e.acceptRetry then HandOver(s).(asap := false) else s
    else if !e.gateLate || !e.faultedLate then Capture(s, e)
    else s
  }

  function Iterate(s: State, e: Env, c: Config): State {
    if ShouldPause(s, e, c) then Paused(s, e)
    else
      var t := Stepped(s, e);
      if t.asap || e.stepTime - t.lastPublish >= c.interval then Publish(t, e) else t
  }

  function Run(s: State, es: seq<Env>, c: Config): State {
    if es == [] then s else Iterate(Run(s, es[..|es| - 1], c), es[|es| - 1], c)
  }

  // ----- what holds over every run -----

  ghost predicate Increasing(cs: seq<Cycle>) {
    forall i, j :: 0 <= i < j < |cs| ==> cs[i].number < cs[j].number
  }

  ghost predicate UpTo(cs: seq<Cycle>, n: nat) {
    forall i :: 0 <= i < |cs| ==> 0 < cs[i].number <= n
  }

  /** The cycles captured with the gate on are those handed over, in order, followed by the one
      that is held, if any. */
  ghost predicate Accounted(s: State) {
    s.capturedOn == s.handed + match s.pending case Some(c) => [c] case None => []
  }

  ghost predicate Disjoint(a: seq<Cycle>, b: seq<Cycle>) {
    forall i, j :: 0 <= i < |a| && 0 <= j < |b| ==> a[i].number != b[j].number
  }

  ghost predicate Inv(s: State) {
    && Accounted(s)
    && Increasing(s.capturedOn) && Increasing(s.capturedOff)
    && UpTo(s.capturedOn, s.sequence) && UpTo(s.capturedOff, s.sequence)
    && Disjoint(s.capturedOn, s.capturedOff)
  }

  /** A cycle with the next number continues one list and stays out of the other. */
  lemma AppendNext(cs: seq<Cycle>, other: seq<Cycle>, n: nat, c: Cycle)
    requires Increasing(cs) && UpTo(cs, n) && UpTo(other, n) && Disjoint(cs, other) && c.number == n + 1
    ensures Increasing(cs + [c]) && UpTo(cs + [c], n + 1) && UpTo(cs, n + 1) && UpTo(other, n + 1)
    ensures Disjoint(cs + [c], other) && Disjoint(other, cs + [c])
  {
  }

  lemma CaptureKeepsInv(s: State, e: Env)
    requires Inv(s) && (e.gateLate ==> s.pending.None?)
    ensures Inv(Capture(s, e))
  {
    var cycle := Cycle(s.sequence + 1, e.stepTime);
    AppendNext(s.capturedOn, s.capturedOff, s.sequence, cycle);
    DisjointBack(s.capturedOn, s.capturedOff);
    AppendNext(s.capturedOff, s.capturedOn, s.sequence, cycle);
    hide Increasing, UpTo, Disjoint;
  }

  lemma DisjointBack(a: seq<Cycle>, b: seq<Cycle>)
    requires Disjoint(a, b)
    ensures Disjoint(b, a)
  {
  }

  lemma HandOverKeepsInv(s: State)
    requires Inv(s) && s.pending.Some?
    ensures Inv(HandOver(s))
  {
  }

  lemma IterateKeepsInv(s: State, e: Env, c: Config)
    requires Inv(s)
    ensures Inv(Iterate(s, e, c))
  {
    if s.pending.Some? {
      HandOverKeepsInv(s);
    }
    if !ShouldPause(s, e, c) && (!e.gateLate || s.pending.None?) {
      CaptureKeepsInv(Stepped(s, e), e);
    }
  }

  lemma {:induction false} RunKeepsInv(es: seq<Env>, c: Config)
    ensures Inv(Run(START, es, c))
  {
    if es != [] {
      RunKeepsInv(es[..|es| - 1], c);
      IterateKeepsInv(Run(START, es[..|es| - 1], c), es[|es| - 1], c);
    }
  }

  /** For every pattern of gate flips, refusals, faults and captures that fail: the publisher gets
      cycles with strictly increasing numbers; every cycle captured with the gate on is handed over
      exactly once or is the one that is held; and none captured with the gate off ever is. */
  lemma HandedInOrderExactlyOnce(es: seq<Env>, c: Config)
    ensures var s := Run(START, es, c);
            && Increasing(s.handed)
            && Accounted(s)
            && (forall x :: x in s.capturedOn ==> (x in s.handed) != (s.pending == Some(x)))
            && (forall x :: x in s.handed ==> x in s.capturedOn && x !in s.capturedOff)
  {
    RunKeepsInv(es, c);
    var s := Run(START, es, c);
    assert forall i :: 0 <= i < |s.handed| ==> s.handed[i] == s.capturedOn[i];
    if s.pending.Some? {
      HeldNotHanded(s);
    }
    forall x | x in s.handed ensures x in s.capturedOn && x !in s.capturedOff {
      var i :| 0 <= i < |s.handed| && s.handed[i] == x;
      assert s.capturedOn[i] == x;
    }
  }

  lemma HeldNotHanded(s: State)
    requires Accounted(s) && Increasing(s.capturedOn) && s.pending.Some?
    ensures s.pending.value !in s.handed
  {
    forall i | 0 <= i < |s.handed| ensures s.handed[i].number < s.pending.value.number {
      assert s.handed[i] == s.capturedOn[i] && s.pending.value == s.capturedOn[|s.handed|];
    }
  }

  /** With the gate on and a cycle held, no cycle is captured; with the gate off, a held cycle stays. */
  lemma NoCaptureWhileHolding(s: State, e: Env, c: Config)
    requires s.pending.Some?
    ensures var t := Iterate(s, e, c);
            && (e.gateLate ==> t.sequence == s.sequence && t.capturedOn == s.capturedOn && t.capturedOff == s.capturedOff)
            && (!e.gateLate && !ShouldPause(s, e, c) ==> t.pending == s.pending && t.handed == s.handed)
  {
  }

  /** With the gate on, the simulation does not advance while backpressure lasts, and backpressure
      lasts at least until the held cycle is gone. */
  lemma {:induction false} HeldCycleStopsSimulation(s: State, es: seq<Env>, c: Config)
    requires s.backpressure && s.pending.Some?
    requires forall e :: e in es ==> e.gateTop && !e.acceptFlush
    ensures Run(s, es, c) == s
  {
    if es != [] {
      var rest, last := es[..|es| - 1], es[|es| - 1];
      assert es == rest + [last];
      HeldCycleStopsSimulation(s, rest, c);
    }
  }

  /** A refused cycle in front of a full queue pauses the very next iteration if the gate is on. */
  lemma RefusalPauses(s: State, e: Env, next: Env, c: Config)
    requires Inv(s) && s.pending.None? && !ShouldPause(s, e, c)
    requires Iterate(s, e, c).pending.Some? && next.gateTop && next.queueFull
    ensures ShouldPause(Iterate(s, e, c), next, c)
    ensures Iterate(Iterate(s, e, c), next, c).steps == Iterate(s, e, c).steps
  {
  }

  // ----- when the loop pauses -----

  /** Something waits to be published. */
  predicate Backlog(s: State, e: Env) {
    s.pending.Some? || e.depth > 0
  }

  /** A running loop pauses exactly when, with the gate on, the publisher is in trouble, the held cycle faces
      a full queue, or a backlog is too late; a pausing one runs on exactly when the gate is off, or the
      publisher is well, nothing is held, and the backlog is gone or short and on time again. */
  lemma PausesIff(s: State, e: Env, c: Config)
    ensures !s.backpressure ==>
              (ShouldPause(s, e, c) <==>
                e.gateTop && (e.faulted || e.degraded || (s.pending.Some? && e.queueFull)
                              || (Backlog(s, e) && (e.lag > c.maxLag || e.age > c.maxLag))))
    ensures s.backpressure ==>
              (!ShouldPause(s, e, c) <==>
                !e.gateTop || (!e.faulted && !e.degraded && s.pending.None?
                               && (e.depth > 0 ==> e.lag < c.resumeLag && e.depth <= c.resumeMaxDepth)))
    ensures Iterate(s, e, c).backpressure == ShouldPause(s, e, c)
    ensures Iterate(s, e, c).steps == s.steps + if ShouldPause(s, e, c) then 0 else 1
  {
  }

  /** The two lags differ: once it pauses, the loop stands still as long as there is a backlog that lags by
      resumeLag or more, even when it has fallen below maxLag again. */
  lemma {:induction false} StandsStillUntilResumed(s: State, es: seq<Env>, c: Config)
    requires s.backpressure && forall e :: e in es ==> e.gateTop && e.depth > 0 && e.lag >= c.resumeLag
    ensures Run(s, es, c).steps == s.steps && Run(s, es, c).backpressure
  {
    if es != [] {
      var rest, last := es[..|es| - 1], es[|es| - 1];
      assert es == rest + [last];
      StandsStillUntilResumed(s, rest, c);
      PausesIff(Run(s, rest, c), last, c);
    }
  }

  // ----- that cycles are captured, and how often -----

  /** An iteration captures a cycle: one list of captured cycles grows. */
  ghost predicate Captures(s: State, e: Env, c: Config) {
    Iterate(s, e, c).capturedOn != s.capturedOn || Iterate(s, e, c).capturedOff != s.capturedOff
  }

  /** An iteration that is not paused captures exactly when a request is open or the last publication is an
      interval old, nothing is held or the gate is off, the publisher is not faulted or the gate is off,
      and the capture succeeds; the cycle has the next number and the time of the step. */
  lemma CapturesIff(s: State, e: Env, c: Config)
    requires !ShouldPause(s, e, c)
    ensures Captures(s, e, c) <==>
              && (s.asap || e.asapRequested || s.lastPublish + c.interval <= e.stepTime)
              && (e.gateLate ==> s.pending.None? && !e.faultedLate) && !e.captureFails
    ensures Captures(s, e, c) ==>
              var t, cycle := Iterate(s, e, c), Cycle(s.sequence + 1, e.stepTime);
              && !t.asap
              && (if e.gateLate then t.capturedOn == s.capturedOn + [cycle] && t.capturedOff == s.capturedOff
                  else t.capturedOff == s.capturedOff + [cycle] && t.capturedOn == s.capturedOn)
              && (t.lastPublish == e.stepTime || t.pending == Some(cycle))
    ensures !Captures(s, e, c) ==> Iterate(s, e, c).capturedOn == s.capturedOn && Iterate(s, e, c).capturedOff == s.capturedOff
  {
  }

  /** A paused iteration takes no step and captures nothing. */
  lemma PauseCapturesNothing(s: State, e: Env, c: Config)
    requires ShouldPause(s, e, c)
    ensures !Captures(s, e, c) && Iterate(s, e, c).steps == s.steps
  {
  }

  /** The gate is on, the publisher accepts and is not faulted, and captures succeed. */
  predicate Healthy(e: Env) {
    e.gateTop && e.gateLate && !e.faulted && !e.degraded && !e.faultedLate && !e.captureFails && e.acceptRetry && e.acceptNew && e.acceptFlush
  }

  /** Nothing is held, and the last publication is the last cycle handed over. */
  ghost predicate UpToDate(s: State) {
    && s.pending.None?
    && s.lastPublish == if s.handed == [] then START.lastPublish else s.handed[|s.handed| - 1].simTime
  }

  lemma HealthyStep(s: State, e: Env, c: Config)
    requires UpToDate(s) && Healthy(e)
    ensures var t := Iterate(s, e, c);
            && UpToDate(t) && s.handed <= t.handed
            && (!ShouldPause(s, e, c) ==> t.steps == s.steps + 1)
            && (!ShouldPause(s, e, c) && c.interval > 0.0 ==> e.stepTime < t.lastPublish + c.interval)
  {
  }

  lemma {:induction false} HealthyRun(es: seq<Env>, c: Config)
    requires forall e :: e in es ==> Healthy(e)
    ensures UpToDate(Run(START, es, c))
  {
    if es != [] {
      var rest := es[..|es| - 1];
      assert forall e :: e in rest ==> e in es;
      HealthyRun(rest, c);
      HealthyStep(Run(START, rest, c), es[|es| - 1], c);
    }
  }

  /** With nothing in the way, after every iteration that is not paused the publisher has been handed a
      cycle less than an interval old. */
  lemma PublishedRecently(es: seq<Env>, e: Env, c: Config)
    requires (forall x :: x in es ==> Healthy(x)) && Healthy(e) && 0.0 < c.interval <= 1000000000.0 && e.stepTime >= 0.0
    requires !ShouldPause(Run(START, es, c), e, c)
    ensures var t := Run(START, es + [e], c);
            && t.handed != [] && e.stepTime < t.handed[|t.handed| - 1].simTime + c.interval
            && t.pending.None? && Run(START, es, c).handed <= t.handed
  {
    HealthyRun(es, c);
    assert (es + [e])[..|es|] == es;
    HealthyStep(Run(START, es, c), e, c);
  }

  /** An early request is served at once: the step's own cycle is handed over. */
  lemma EarlyRequestIsServed(es: seq<Env>, e: Env, c: Config)
    requires (forall x :: x in es ==> Healthy(x)) && Healthy(e) && e.asapRequested && !ShouldPause(Run(START, es, c), e, c)
    ensures var s, t := Run(START, es, c), Run(START, es + [e], c);
            t.handed == s.handed + [Cycle(s.sequence + 1, e.stepTime)] && !t.asap
  {
    HealthyRun(es, c);
    assert (es + [e])[..|es|] == es;
  }

  /** A request is closed without a cycle of its own exactly when a held cycle is taken in its place. */
  lemma RequestSpentIff(s: State, e: Env, c: Config)
    requires !ShouldPause(s, e, c) && (s.asap || e.asapRequested)
    ensures !Iterate(s, e, c).asap && !Captures(s, e, c) <==> e.gateLate && s.pending.Some? && e.acceptRetry
  {
  }

  // ----- how far apart captured cycles are -----

  ghost function Captured(s: State): seq<Cycle> {
    s.capturedOn + s.capturedOff
  }

  /** The time of the latest cycle, as long as none is captured while another is held. */
  ghost function Latest(s: State): real {
    match s.pending case Some(x) => x.simTime case None => s.lastPublish
  }

  /** Later numbers are at least an interval later. */
  ghost predicate Spaced(cs: seq<Cycle>, interval: real) {
    forall i, j :: 0 <= i < |cs| && 0 <= j < |cs| && cs[i].number < cs[j].number ==> cs[j].simTime - cs[i].simTime >= interval
  }

  ghost predicate SpacedSoFar(s: State, c: Config) {
    && Spaced(Captured(s), c.interval) && !s.asap
    && forall i :: 0 <= i < |Captured(s)| ==> Captured(s)[i].simTime <= Latest(s) && Captured(s)[i].number <= s.sequence
  }

  /** No early requests, and the gate is never off when a cycle is held. */
  ghost predicate Unhurried(es: seq<Env>, c: Config) {
    es == []
    || (var rest, last := es[..|es| - 1], es[|es| - 1];
        Unhurried(rest, c) && !last.asapRequested && (Run(START, rest, c).pending.Some? ==> last.gateLate))
  }

  /** A cycle that comes an interval after all the others may stand anywhere among them. */
  lemma SpacedInsert(a: seq<Cycle>, x: Cycle, b: seq<Cycle>, interval: real)
    requires Spaced(a + b, interval)
    requires forall y :: y in a + b ==> y.simTime + interval <= x.simTime && y.number < x.number
    ensures Spaced(a + [x] + b, interval)
  {
    var cs, ds, k := a + b, a + [x] + b, |a|;
    assert forall i :: 0 <= i < |ds| && i != k ==> ds[i] == cs[if i < k then i else i - 1] && ds[i] in cs;
    forall i, j | 0 <= i < |ds| && 0 <= j < |ds| && ds[i].number < ds[j].number ensures ds[j].simTime - ds[i].simTime >= interval {
      if i != k && j != k {
        assert ds[i] == cs[if i < k then i else i - 1] && ds[j] == cs[if j < k then j else j - 1];
      }
    }
  }

  lemma SpacedStep(s: State, e: Env, c: Config)
    requires SpacedSoFar(s, c) && c.interval >= 0.0 && !e.asapRequested && (s.pending.Some? ==> e.gateLate)
    ensures SpacedSoFar(Iterate(s, e, c), c)
  {
    hide Spaced;
    var t := Iterate(s, e, c);
    if Captures(s, e, c) {
      SpacedCapture(s, e, c);
    } else if !ShouldPause(s, e, c) {
      CapturesIff(s, e, c);
      assert Captured(t) == Captured(s);
    } else {
      PauseCapturesNothing(s, e, c);
      assert Captured(t) == Captured(s);
    }
  }

  lemma SpacedCapture(s: State, e: Env, c: Config)
    requires SpacedSoFar(s, c) && c.interval >= 0.0 && !e.asapRequested && (s.pending.Some? ==> e.gateLate)
    requires Captures(s, e, c)
    ensures SpacedSoFar(Iterate(s, e, c), c)
  {
    hide Spaced, ShouldPause;
    var t, x := Iterate(s, e, c), Cycle(s.sequence + 1, e.stepTime);
    CapturesIff(s, e, c);
    var k := if e.gateLate then |s.capturedOn| else |s.capturedOn| + |s.capturedOff|;
    var a, b := Captured(s)[..k], Captured(s)[k..];
    assert a + b == Captured(s) && Captured(t) == a + [x] + b;
    SpacedInsert(a, x, b, c.interval);
    forall y | y in Captured(t) ensures y.simTime <= Latest(t) && y.number <= t.sequence {
      assert y == x || y in Captured(s);
    }
  }

  /** Without early requests, and with the gate on whenever a cycle is held, any two captured cycles lie at
      least an interval apart, over every run. */
  lemma {:induction false} CapturesAreSpaced(es: seq<Env>, c: Config)
    requires Unhurried(es, c) && c.interval >= 0.0
    ensures SpacedSoFar(Run(START, es, c), c)
  {
    if es != [] {
      var rest := es[..|es| - 1];
      CapturesAreSpaced(rest, c);
      SpacedStep(Run(START, rest, c), es[|es| - 1], c);
    }
  }

  /** The gate condition is needed, whatever the interval: a cycle that is refused and held, then the gate
      off, and half an interval later the next cycle is captured. */
  lemma GateFlipCapturesEarly(c: Config)
    requires 0.0 < c.interval <= 1000000000.0
    ensures exists es: seq<Env> :: (forall e :: e in es ==> !e.asapRequested) && !Spaced(Captured(Run(START, es, c)), c.interval)
  {
    var e := Env(false, false, false, false, 0, 0.0, 0.0, false, 0.0, false, true, false, false, false, false);
    var f := e.(stepTime := c.interval / 2.0, gateLate := false);
    var s := Iterate(START, e, c);
    assert [e, f][..1] == [e] && [e][..0] == [];
    assert Run(START, [e], c) == Iterate(Run(START, [], c), e, c) == s;
    var t := Iterate(s, f, c);
    assert Run(START, [e, f], c) == t;
    assert Captured(t) == [Cycle(1, 0.0), Cycle(2, c.interval / 2.0)];
    assert !Spaced(Captured(t), c.interval) by {
      assert Captured(t)[0].number < Captured(t)[1].number;
    }
  }

  // ----- the loop -----

  class Runner {
    var cycleSequence: nat
    var pendingCycle: Option<Cycle>
    var backpressureActive: bool
    var lastPublishSimT: real
    var publishAsap: bool
    var stepCount: nat
    ghost var handed: seq<Cycle>
    ghost var capturedOn: seq<Cycle>
    ghost var capturedOff: seq<Cycle>
    const config: Config

    constructor (config: Config)
      ensures View() == START && this.config == config
    {
      cycleSequence, pendingCycle, backpressureActive := 0, None, false;
      lastPublishSimT, publishAsap, stepCount := -1000000000.0, false, 0;
      handed, capturedOn, capturedOff := [], [], [];
      this.config := config;
    }

    ghost function View(): State
      reads this
    {
      State(cycleSequence, pendingCycle, backpressureActive, lastPublishSimT, publishAsap, stepCount,
            handed, capturedOn, capturedOff)
    }

    /** publisher.try_enqueue on the held cycle. */
    method TryEnqueue(accepted: bool)
      requires pendingCycle.Some?
      modifies this
      ensures View() == if accepted then HandOver(old(View())) else old(View())
    {
      if accepted {
        handed := handed + [pendingCycle.value];
        lastPublishSimT := pendingCycle.value.simTime;
        pendingCycle := None;
      }
    }

    /** The lag gate at the top of the loop. */
    method PauseWanted(e: Env) returns (shouldPause: bool)
      ensures shouldPause == ShouldPause(View(), e, config)
    {
      shouldPause := false;
      if e.gateTop {
        if e.faulted || e.degraded {
          shouldPause := true;
        } else if pendingCycle.Some? && e.queueFull {
          shouldPause := true;
        } else if pendingCycle.None? && e.depth == 0 {
          shouldPause := false;
        } else if e.lag > config.maxLag || e.age > config.maxLag {
          shouldPause := true;
        }
        if backpressureActive {
          shouldPause := !(!e.faulted && !e.degraded && pendingCycle.None?
                           && (e.depth == 0 || (e.lag < config.resumeLag && e.depth <= config.resumeMaxDepth)));
        }
      }
    }

    /** One turn of the loop. */
    method Turn(e: Env)
      modifies this
      ensures View() == Iterate(old(View()), e, config)
    {
      hide ShouldPause, Publish;
      var shouldPause := PauseWanted(e);
      if shouldPause {
        backpressureActive := true;
        if pendingCycle.Some? {
          TryEnqueue(e.acceptFlush);
        }
        return;
      }
      backpressureActive := false;
      stepCount := stepCount + 1;
      publishAsap := publishAsap || e.asapRequested;
      if publishAsap || e.stepTime - lastPublishSimT >= config.interval {
        PublishDue(e);
      }
    }

    method PublishDue(e: Env)
      modifies this
      ensures View() == Publish(old(View()), e)
    {
      if e.gateLate && pendingCycle.Some? {
        TryEnqueue(e.acceptRetry);
        if e.acceptRetry {
          publishAsap := false;
        }
      } else if !e.gateLate || !e.faultedLate {
        cycleSequence := cycleSequence + 1;
        if !e.captureFails {
          var cycle := Cycle(cycleSequence, e.stepTime);
          publishAsap := false;
          if e.gateLate {
            capturedOn := capturedOn + [cycle];
            pendingCycle := Some(cycle);
            TryEnqueue(e.acceptNew);
          } else {
            capturedOff := capturedOff + [cycle];
            lastPublishSimT := e.stepTime;
          }
        }
      }
    }

    /** The loop over whatever the environment does. */
    method Loop(es: seq<Env>)
      requires View() == START
      modifies this
      ensures View() == Run(START, es, config) && Increasing(handed) && Accounted(View())
    {
      for i := 0 to |es|
        invariant View() == Run(START, es[..i], config)
      {
        assert es[..i + 1][..i] == es[..i];
        Turn(es[i]);
      }
      assert es[..|es|] == es;
      HandedInOrderExactlyOnce(es, config);
    }
  }
}
