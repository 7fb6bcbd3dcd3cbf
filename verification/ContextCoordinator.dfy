/** The hold-and-recovery state machine of `Visualize/context_engine/coordinator.py`. */
module ContextCoordinator {
  import opened Options

  datatype TrafficState = FreeFlow | Stable | Busy | Congested | Oversaturated {
    function Rank(): nat {
      match this case FreeFlow => 0 case Stable => 1 case Busy => 2 case Congested => 3 case Oversaturated => 4
    }

    /** The states whose improvement is subject to the recovery timer. */
    predicate Loaded() {
      Busy? || Congested? || Oversaturated?
    }
  }

  datatype Thresholds = Thresholds(busy: real, congested: real, oversaturated: real)

  function Classify(pcu: real, q: real, t: Thresholds): TrafficState {
    if pcu >= t.oversaturated || q > 70.0 then Oversaturated
    else if pcu >= t.congested || q > 40.0 then Congested
    else if pcu >= t.busy || q > 15.0 then Busy
    else if pcu >= 5.0 then Stable
    else FreeFlow
  }

  /** With thresholds in their order, a class is reached exactly when one of its two limits is. */
  lemma ClassifyAtLeast(pcu: real, q: real, t: Thresholds)
    requires 5.0 <= t.busy <= t.congested <= t.oversaturated
    ensures var c := Classify(pcu, q, t);
            && (c == Oversaturated <==> pcu >= t.oversaturated || q > 70.0)
            && (c.Rank() >= Congested.Rank() <==> pcu >= t.congested || q > 40.0)
            && (c.Loaded() <==> pcu >= t.busy || q > 15.0)
            && (c == FreeFlow <==> pcu < 5.0 && q <= 15.0)
    ensures forall c: TrafficState :: c.Loaded() <==> c.Rank() >= Busy.Rank()
  {
  }

  // ----- one direction -----

  /** The committed state with the time it was last confirmed, and the recovery timer if running. */
  datatype Hold = Hold(state: TrafficState, since: real)
  datatype Dir = Dir(hold: Option<Hold>, recovery: Option<real>)

  const FRESH := Dir(None, None)

  datatype Timing = Timing(hysteresis: real, recovery: real)

  /** One observation: the next machine state and the state that is reported. */
  function Observe(d: Dir, raw: TrafficState, now: real, t: Timing): (r: (Dir, TrafficState))
    ensures r.0.hold.Some?
  {
    match d.hold
    case None => (Dir(Some(Hold(raw, now)), d.recovery), raw)
    case Some(Hold(prev, since)) =>
      // hysteresis
      var (d1, held1) :=
        if prev == raw then (d.(hold := Some(Hold(raw, now))), raw)
        else if now - since < t.hysteresis then (d, prev)
        else (Dir(Some(Hold(raw, now)), None), raw);
      // recovery
      if prev.Loaded() && !raw.Loaded() then
        match d1.recovery
        case None => (d1.(recovery := Some(now)), prev)
        case Some(rs) =>
          if now - rs < t.recovery then (d1, prev)
          else (Dir(Some(Hold(raw, now)), None), raw)
      else if prev != raw && raw.Loaded() then (d1.(recovery := None), held1)
      else (d1, held1)
  }

  // ----- whole observation sequences -----

  datatype Obs = Obs(raw: TrafficState, now: real)

  ghost predicate InOrder(obs: seq<Obs>) {
    forall i, j :: 0 <= i <= j < |obs| ==> obs[i].now <= obs[j].now
  }

  /** The machine after the first `n` observations. */
  function After(obs: seq<Obs>, n: nat, t: Timing): (d: Dir)
    requires n <= |obs|
    ensures n > 0 ==> d.hold.Some?
  {
    if n == 0 then FRESH else Observe(After(obs, n - 1, t), obs[n - 1].raw, obs[n - 1].now, t).0
  }

  /** What was reported for observation `i`. */
  function Reported(obs: seq<Obs>, i: nat, t: Timing): TrafficState
    requires i < |obs|
  {
    Observe(After(obs, i, t), obs[i].raw, obs[i].now, t).1
  }

  /** The committed state changed at observation `i` (or was first set there). */
  ghost predicate Commits(obs: seq<Obs>, i: nat, t: Timing)
    requires i < |obs|
  {
    After(obs, i, t).hold.None? || After(obs, i, t).hold.value.state != After(obs, i + 1, t).hold.value.state
  }

  /** The index of the commit that the state after `n` observations stems from. */
  function LastCommit(obs: seq<Obs>, n: nat, t: Timing): (k: nat)
    requires 0 < n <= |obs|
    ensures k < n
  {
    if n == 1 then 0
    else if After(obs, n, t).hold.value.state != After(obs, n - 1, t).hold.value.state then n - 1
    else LastCommit(obs, n - 1, t)
  }

  /** Nothing the machine remembers is older than the last commit. */
  lemma {:induction false} MemorySinceCommit(obs: seq<Obs>, n: nat, t: Timing)
    requires 0 < n <= |obs| && InOrder(obs)
    ensures var d, c := After(obs, n, t), obs[LastCommit(obs, n, t)].now;
            && c <= d.hold.value.since
            && (d.recovery.Some? ==> c <= d.recovery.value)
  {
    if n > 1 {
      MemorySinceCommit(obs, n - 1, t);
      assert obs[LastCommit(obs, n - 1, t)].now <= obs[n - 1].now;
    }
  }

  lemma {:induction false} LastCommitIsLatest(obs: seq<Obs>, n: nat, i: nat, t: Timing)
    requires 0 < n <= |obs| && i < n && Commits(obs, i, t)
    ensures i <= LastCommit(obs, n, t)
  {
    if n > 1 && i < n - 1 {
      LastCommitIsLatest(obs, n - 1, i, t);
    }
  }

  function Min(a: real, b: real): real { if a <= b then a else b }

  /** The committed state changes exactly when the reading differs from it and either the last confirmation
      is hysteresis_s old, or the recovery timer of a loaded state has expired at an unloaded reading; and
      then it changes to the reading. */
  lemma ChangeIff(d: Dir, raw: TrafficState, now: real, t: Timing)
    requires d.hold.Some?
    ensures var prev, next := d.hold.value, Observe(d, raw, now, t).0.hold.value;
            && (next.state != prev.state <==>
                  && raw != prev.state
                  && (|| now - prev.since >= t.hysteresis
                      || (prev.state.Loaded() && !raw.Loaded() && d.recovery.Some? && now - d.recovery.value >= t.recovery)))
            && (next.state != prev.state ==> next == Hold(raw, now))
            && (next.state == prev.state ==> next.since == if raw == prev.state then now else prev.since)
  {
  }

  /** The last confirmation is not in the future. */
  lemma {:induction false} SincePast(obs: seq<Obs>, n: nat, t: Timing)
    requires 0 < n <= |obs| && InOrder(obs)
    ensures After(obs, n, t).hold.value.since <= obs[n - 1].now
  {
    if n > 1 {
      SincePast(obs, n - 1, t);
      assert obs[n - 2].now <= obs[n - 1].now;
    }
  }

  /** Readings `k` to `n` are all `x`. */
  ghost predicate Steady(obs: seq<Obs>, k: nat, n: nat, x: TrafficState)
    requires n < |obs|
  {
    k <= n && forall i :: k <= i <= n ==> obs[i].raw == x
  }

  /** During steady readings the state is either `x` already, or was last confirmed before they began. */
  lemma {:induction false} SteadyWaits(obs: seq<Obs>, k: nat, n: nat, m: nat, x: TrafficState, t: Timing)
    requires InOrder(obs) && n < |obs| && Steady(obs, k, n, x) && k <= m <= n
    ensures var d := After(obs, m, t); d.hold.None? || d.hold.value.state == x || d.hold.value.since <= obs[k].now
  {
    if m == k {
      if k > 0 {
        SincePast(obs, k, t);
        assert obs[k - 1].now <= obs[k].now;
      }
    } else {
      SteadyWaits(obs, k, n, m - 1, x, t);
    }
  }

  /** A change that lasts is accepted: after readings that were one and the same state for hysteresis_s,
      that state is committed; and it is reported at once, or at the next such reading. */
  lemma LastingChangeIsAccepted(obs: seq<Obs>, k: nat, n: nat, x: TrafficState, t: Timing)
    requires InOrder(obs) && n < |obs| && Steady(obs, k, n, x) && obs[n].now - obs[k].now >= t.hysteresis
    ensures After(obs, n + 1, t).hold.value.state == x
    ensures Reported(obs, n, t) == x || (n + 1 < |obs| && obs[n + 1].raw == x ==> Reported(obs, n + 1, t) == x)
  {
    SteadyWaits(obs, k, n, n, x, t);
    var d := After(obs, n, t);
    assert After(obs, n + 1, t) == Observe(d, obs[n].raw, obs[n].now, t).0;
  }

  /** Neither timer is in the future. */
  lemma {:induction false} RecoveryPast(obs: seq<Obs>, n: nat, t: Timing)
    requires 0 < n <= |obs| && InOrder(obs)
    ensures After(obs, n, t).recovery.Some? ==> After(obs, n, t).recovery.value <= obs[n - 1].now
  {
    if n > 1 {
      RecoveryPast(obs, n - 1, t);
      assert obs[n - 2].now <= obs[n - 1].now;
    }
  }

  /** Readings `k` to `n` are all unloaded. */
  ghost predicate Improved(obs: seq<Obs>, k: nat, n: nat)
    requires n < |obs|
  {
    k <= n && forall i :: k <= i <= n ==> !obs[i].raw.Loaded()
  }

  lemma {:induction false} ImprovedWaits(obs: seq<Obs>, k: nat, n: nat, m: nat, t: Timing)
    requires InOrder(obs) && n < |obs| && Improved(obs, k, n) && k < m <= n + 1
    ensures var d := After(obs, m, t); !d.hold.value.state.Loaded() || (d.recovery.Some? && d.recovery.value <= obs[k].now)
    decreases m
  {
    assert After(obs, m, t) == Observe(After(obs, m - 1, t), obs[m - 1].raw, obs[m - 1].now, t).0;
    if m > k + 1 {
      ImprovedWaits(obs, k, n, m - 1, t);
    } else if k > 0 {
      RecoveryPast(obs, k, t);
      assert obs[k - 1].now <= obs[k].now;
    }
  }

  /** Relief that lasts is accepted: after readings that were all unloaded for recovery_s, whichever they
      were, no load is committed any more. */
  lemma LastingReliefIsAccepted(obs: seq<Obs>, k: nat, n: nat, t: Timing)
    requires InOrder(obs) && n < |obs| && Improved(obs, k, n) && obs[n].now - obs[k].now >= t.recovery && k < n
    ensures !After(obs, n + 1, t).hold.value.state.Loaded()
  {
    ImprovedWaits(obs, k, n, n, t);
    assert After(obs, n + 1, t) == Observe(After(obs, n, t), obs[n].raw, obs[n].now, t).0;
  }

  /** The bound is met: a reading that comes hysteresis_s after the only other one is committed at once,
      one that comes any earlier is not. */
  lemma HysteresisIsExact(prev: TrafficState, raw: TrafficState, since: real, now: real, t: Timing)
    requires raw != prev && now >= since
    ensures After([Obs(prev, since), Obs(raw, now)], 2, t).hold.value.state == raw <==> now - since >= t.hysteresis
  {
    var obs := [Obs(prev, since), Obs(raw, now)];
    assert After(obs, 1, t) == Dir(Some(Hold(prev, since)), None);
    ChangeIff(After(obs, 1, t), raw, now, t);
  }

  /** A committed state lasts at least min(hysteresis_s, recovery_s), for every observation sequence
      with nondecreasing time; at least hysteresis_s unless it is a loaded state that gives way to
      an unloaded one. */
  lemma Dwell(obs: seq<Obs>, i: nat, j: nat, t: Timing)
    requires InOrder(obs) && i < j < |obs| && Commits(obs, i, t) && Commits(obs, j, t)
    ensures obs[j].now - obs[i].now >= Min(t.hysteresis, t.recovery)
    ensures !(After(obs, j, t).hold.value.state.Loaded() && !obs[j].raw.Loaded()) ==>
              obs[j].now - obs[i].now >= t.hysteresis
  {
    MemorySinceCommit(obs, j, t);
    LastCommitIsLatest(obs, j, i, t);
    assert obs[i].now <= obs[LastCommit(obs, j, t)].now;
    ChangeIff(After(obs, j, t), obs[j].raw, obs[j].now, t);
  }

  /** At observation `j` a loaded state gives way to an unloaded one. */
  ghost predicate Leaves(obs: seq<Obs>, j: nat, t: Timing)
    requires j < |obs|
  {
    Commits(obs, j, t) && After(obs, j, t).hold.Some? && After(obs, j, t).hold.value.state.Loaded() && !obs[j].raw.Loaded()
  }

  /** Every two commits are `recovery` apart. */
  ghost predicate CommitsSpaced(t: Timing) {
    forall obs: seq<Obs>, i: nat, j: nat :: InOrder(obs) && i < j < |obs| && Commits(obs, i, t) && Commits(obs, j, t) ==>
      obs[j].now - obs[i].now >= t.recovery
  }

  /** A loaded state is left no earlier than `recovery` after any commit. */
  ghost predicate LeavingSpaced(t: Timing) {
    forall obs: seq<Obs>, i: nat, j: nat :: InOrder(obs) && i < j < |obs| && Commits(obs, i, t) && Leaves(obs, j, t) ==>
      obs[j].now - obs[i].now >= t.recovery
  }

  /** recovery_s bounds the time to leave congestion, or the time between any two commits, for all
      observation sequences exactly when it is no longer than hysteresis_s. */
  lemma RecoveryBoundsIff(t: Timing)
    requires t.hysteresis >= 0.0 && t.recovery >= 0.0
    ensures LeavingSpaced(t) <==> t.recovery <= t.hysteresis
    ensures CommitsSpaced(t) <==> t.recovery <= t.hysteresis
  {
    if t.recovery <= t.hysteresis {
      forall obs: seq<Obs>, i: nat, j: nat | InOrder(obs) && i < j < |obs| && Commits(obs, i, t) && Commits(obs, j, t)
        ensures obs[j].now - obs[i].now >= t.recovery
      {
        Dwell(obs, i, j, t);
      }
    } else {
      var obs := [Obs(Congested, 0.0), Obs(FreeFlow, t.hysteresis)];
      assert After(obs, 1, t) == Dir(Some(Hold(Congested, 0.0)), None);
      assert After(obs, 2, t).hold == Some(Hold(FreeFlow, t.hysteresis));
      assert InOrder(obs) && Commits(obs, 0, t) && Leaves(obs, 1, t);
    }
  }

  /** With the shipped 8 s and 12 s it is longer: congestion can be left after 8 s. */
  lemma RecoveryIsNoLowerBound()
    ensures var t, obs := Timing(8.0, 12.0), [Obs(Congested, 0.0), Obs(FreeFlow, 8.0)];
            After(obs, 2, t).hold == Some(Hold(FreeFlow, 8.0)) && !LeavingSpaced(t)
  {
    var t, obs := Timing(8.0, 12.0), [Obs(Congested, 0.0), Obs(FreeFlow, 8.0)];
    assert After(obs, 1, t) == Dir(Some(Hold(Congested, 0.0)), None);
    RecoveryBoundsIff(t);
  }

  /** When a loaded state is left, every reading of the last `recovery` seconds was unloaded. */
  ghost predicate ImprovedThroughout(t: Timing) {
    forall obs: seq<Obs>, i: nat, j: nat :: InOrder(obs) && i < j < |obs| && Leaves(obs, j, t) && obs[j].now - obs[i].now < t.recovery ==>
      !Loaded(obs, i)
  }

  predicate Loaded(obs: seq<Obs>, i: nat)
    requires i < |obs|
  {
    obs[i].raw.Loaded()
  }

  /** recovery_s of improved readings are guaranteed only when recovery_s is zero: otherwise hysteresis
      can end congestion right after a reading that was still loaded. */
  lemma ImprovedThroughoutIff(t: Timing)
    requires t.hysteresis >= 0.0 && t.recovery >= 0.0
    ensures ImprovedThroughout(t) <==> t.recovery == 0.0
  {
    if t.recovery > 0.0 {
      var m := t.hysteresis - Min(t.recovery, t.hysteresis) / 2.0;
      if t.hysteresis > 0.0 {
        var obs := [Obs(Congested, 0.0), Obs(Busy, m), Obs(FreeFlow, t.hysteresis)];
        assert After(obs, 1, t) == Dir(Some(Hold(Congested, 0.0)), None);
        assert After(obs, 2, t) == Dir(Some(Hold(Congested, 0.0)), None);
        assert After(obs, 3, t).hold == Some(Hold(FreeFlow, t.hysteresis));
        assert InOrder(obs) && Leaves(obs, 2, t) && Loaded(obs, 1);
      } else {
        var obs := [Obs(Congested, 0.0), Obs(FreeFlow, 0.0)];
        assert After(obs, 1, t) == Dir(Some(Hold(Congested, 0.0)), None);
        assert After(obs, 2, t).hold == Some(Hold(FreeFlow, 0.0));
        assert InOrder(obs) && Leaves(obs, 1, t) && Loaded(obs, 0);
      }
    } else {
      forall obs: seq<Obs>, i: nat, j: nat | InOrder(obs) && i < j < |obs| && Leaves(obs, j, t)
        ensures obs[j].now - obs[i].now >= 0.0
      {
      }
    }
  }

  /** The observation at which the running recovery timer was set. */
  function TimerStart(obs: seq<Obs>, n: nat, t: Timing): (k: nat)
    requires 0 < n <= |obs|
    ensures k < n
  {
    if n > 1 && After(obs, n - 1, t).recovery == After(obs, n, t).recovery then TimerStart(obs, n - 1, t) else n - 1
  }

  /** Since the recovery timer was set, by an unloaded reading, each loaded reading repeated the state
      that was committed at that moment.  So the timer has run over improved readings only exactly when
      no reading confirmed the committed state in between. */
  lemma {:induction false} TimerMissesConfirmations(obs: seq<Obs>, n: nat, t: Timing)
    requires 0 < n <= |obs| && After(obs, n, t).recovery.Some?
    ensures var k := TimerStart(obs, n, t);
            && obs[k].now == After(obs, n, t).recovery.value && !obs[k].raw.Loaded()
            && (forall i :: k < i < n && Loaded(obs, i) ==> Confirms(obs, i, t))
            && ((forall i :: k < i < n ==> !Loaded(obs, i)) <==> (forall i :: k < i < n && Loaded(obs, i) ==> !Confirms(obs, i, t)))
  {
    var d, e := After(obs, n - 1, t), After(obs, n, t);
    assert e == Observe(d, obs[n - 1].raw, obs[n - 1].now, t).0;
    if n > 1 && d.recovery == e.recovery {
      TimerMissesConfirmations(obs, n - 1, t);
    }
  }

  /** Reading `i` is the state that is committed when it comes in. */
  ghost predicate Confirms(obs: seq<Obs>, i: nat, t: Timing)
    requires i < |obs|
  {
    After(obs, i, t).hold.Some? && After(obs, i, t).hold.value.state == obs[i].raw
  }

  /** A stale recovery timer survives a return to congestion: one improved observation at 13 s ends
      the congestion although the observation at 10 s still confirmed it. */
  lemma StaleRecoveryTimer()
    ensures var t := Timing(8.0, 12.0);
            var obs := [Obs(Congested, 0.0), Obs(FreeFlow, 1.0), Obs(Congested, 10.0), Obs(FreeFlow, 13.0)];
            && After(obs, 3, t) == Dir(Some(Hold(Congested, 10.0)), Some(1.0))
            && After(obs, 4, t).hold == Some(Hold(FreeFlow, 13.0))
  {
    var t := Timing(8.0, 12.0);
    var obs := [Obs(Congested, 0.0), Obs(FreeFlow, 1.0), Obs(Congested, 10.0), Obs(FreeFlow, 13.0)];
    assert After(obs, 1, t) == Dir(Some(Hold(Congested, 0.0)), None);
    assert After(obs, 2, t) == Dir(Some(Hold(Congested, 0.0)), Some(1.0));
    assert After(obs, 3, t) == Dir(Some(Hold(Congested, 10.0)), Some(1.0));
  }

  /** The report is the committed state, except at the observation where hysteresis takes a loaded
      state to an unloaded one: there it is still the old state, and one observation later they agree. */
  lemma ReportLagsByOne(obs: seq<Obs>, i: nat, t: Timing)
    requires 0 < i < |obs|
    ensures Reported(obs, i, t) != After(obs, i + 1, t).hold.value.state ==>
              && Commits(obs, i, t) && Reported(obs, i, t) == After(obs, i, t).hold.value.state
              && Reported(obs, i, t).Loaded() && !obs[i].raw.Loaded()
              && (i + 1 < |obs| ==> Reported(obs, i + 1, t) == After(obs, i + 2, t).hold.value.state)
  {
    var d := After(obs, i, t);
    assert After(obs, i + 1, t) == Observe(d, obs[i].raw, obs[i].now, t).0;
    if Reported(obs, i, t) != After(obs, i + 1, t).hold.value.state {
      ReportDiffers(d, obs[i].raw, obs[i].now, t);
      if i + 1 < |obs| {
        var e := After(obs, i + 1, t);
        assert After(obs, i + 2, t) == Observe(e, obs[i + 1].raw, obs[i + 1].now, t).0;
        if Reported(obs, i + 1, t) != After(obs, i + 2, t).hold.value.state {
          ReportDiffers(e, obs[i + 1].raw, obs[i + 1].now, t);
        }
      }
    }
  }

  lemma ReportDiffers(d: Dir, raw: TrafficState, now: real, t: Timing)
    requires d.hold.Some? && Observe(d, raw, now, t).1 != Observe(d, raw, now, t).0.hold.value.state
    ensures d.hold.value.state.Loaded() && !raw.Loaded()
    ensures Observe(d, raw, now, t).0.hold.value.state == raw && Observe(d, raw, now, t).1 == d.hold.value.state
  {
  }

  // ----- aggregation -----

  /** `max(contexts, key=rank)`: the first state of the highest rank. */
  function Worst(contexts: seq<TrafficState>): TrafficState {
    if contexts == [] then FreeFlow
    else if |contexts| == 1 then contexts[0]
    else
      var w, last := Worst(contexts[..|contexts| - 1]), contexts[|contexts| - 1];
      if last.Rank() > w.Rank() then last else w
  }

  lemma {:induction false} WorstIsMaximum(contexts: seq<TrafficState>)
    requires contexts != []
    ensures Worst(contexts) in contexts
    ensures forall c :: c in contexts ==> c.Rank() <= Worst(contexts).Rank()
  {
    if |contexts| > 1 {
      var rest := contexts[..|contexts| - 1];
      WorstIsMaximum(rest);
      assert contexts == rest + [contexts[|contexts| - 1]];
    }
  }

  /** The order of the states, and what the aggregate of a node is: the worst state among its directions,
      and free flow when there are none. */
  lemma WorstByName(contexts: seq<TrafficState>)
    ensures FreeFlow.Rank() < Stable.Rank() < Busy.Rank() < Congested.Rank() < Oversaturated.Rank()
    ensures Worst(contexts) == if Oversaturated in contexts then Oversaturated else if Congested in contexts then Congested
                               else if Busy in contexts then Busy else if Stable in contexts then Stable else FreeFlow
  {
    if contexts != [] {
      WorstIsMaximum(contexts);
    }
  }

  // ----- the coordinator -----

  datatype Key = Key(node: string, direction: string)

  datatype Reading = Reading(direction: string, pcu: real, queue: real)

  /** One entry of a node's `directions`, which persist from snapshot to snapshot. */
  datatype Entry = Entry(direction: string, state: TrafficState)

  /** `directions[direction] = ...`: a known direction keeps its place. */
  function PutEntry(es: seq<Entry>, e: Entry): seq<Entry> {
    if es == [] then [e]
    else if es[0].direction == e.direction then [e] + es[1..]
    else [es[0]] + PutEntry(es[1..], e)
  }

  function Find(es: seq<Entry>, direction: string): Option<TrafficState> {
    if es == [] then None
    else if es[0].direction == direction then Some(es[0].state)
    else Find(es[1..], direction)
  }

  function States(es: seq<Entry>): (r: seq<TrafficState>)
    ensures |r| == |es| && forall i :: 0 <= i < |es| ==> r[i] == es[i].state
  {
    if es == [] then [] else [es[0].state] + States(es[1..])
  }

  lemma {:induction false} FindPut(es: seq<Entry>, e: Entry, direction: string)
    ensures Find(PutEntry(es, e), direction) == if direction == e.direction then Some(e.state) else Find(es, direction)
  {
    if es != [] && es[0].direction != e.direction {
      FindPut(es[1..], e, direction);
    }
  }

  class NetworkContextCoordinator {
    var dirHold: map<Key, Hold>
    var recoverySince: map<Key, real>
    var nodes: map<string, seq<Entry>>
    const thresholds: Thresholds
    const timing: Timing

    constructor (thresholds: Thresholds, timing: Timing)
      ensures dirHold == map[] && recoverySince == map[] && nodes == map[]
      ensures this.thresholds == thresholds && this.timing == timing
    {
      dirHold, recoverySince, nodes, this.thresholds, this.timing := map[], map[], map[], thresholds, timing;
    }

    function View(key: Key): Dir
      reads this`dirHold, this`recoverySince
    {
      Dir(if key in dirHold then Some(dirHold[key]) else None, if key in recoverySince then Some(recoverySince[key]) else None)
    }

    /** One direction of one snapshot: updates the two dictionaries in place. */
    method UpdateDirection(key: Key, raw: TrafficState, now: real) returns (held: TrafficState)
      modifies this`dirHold, this`recoverySince
      ensures (View(key), held) == Observe(old(View(key)), raw, now, timing)
      ensures forall k: Key :: k != key ==> View(k) == old(View(k))
    {
      held := raw;
      if key !in dirHold {
        dirHold := dirHold[key := Hold(raw, now)];
        return;
      }
      var prev, since := dirHold[key].state, dirHold[key].since;
      if prev != raw {
        if now - since < timing.hysteresis {
          held := prev;
        } else {
          dirHold := dirHold[key := Hold(raw, now)];
          recoverySince := recoverySince - {key};
        }
      } else {
        dirHold := dirHold[key := Hold(raw, now)];
      }
      if prev.Loaded() && !raw.Loaded() {
        if key !in recoverySince {
          recoverySince := recoverySince[key := now];
          held := prev;
        } else if now - recoverySince[key] < timing.recovery {
          held := prev;
        } else {
          held := raw;
          dirHold := dirHold[key := Hold(raw, now)];
          recoverySince := recoverySince - {key};
        }
      } else if prev != raw && raw.Loaded() {
        recoverySince := recoverySince - {key};
      }
    }

    function DirectionsOf(node: string): seq<Entry>
      reads this`nodes
    {
      if node in nodes then nodes[node] else []
    }

    /** What the snapshot makes of one reading, in the state before it. */
    function Observed(node: string, r: Reading, now: real): (Dir, TrafficState)
      reads this`dirHold, this`recoverySince
    {
      Observe(View(Key(node, r.direction)), Classify(r.pcu, r.queue, thresholds), now, timing)
    }

    /** One reading of a node that is known already. */
    method UpdateReading(node: string, r: Reading, now: real)
      requires node in nodes
      modifies this
      ensures node in nodes && View(Key(node, r.direction)) == old(Observed(node, r, now)).0
      ensures Find(nodes[node], r.direction) == Some(old(Observed(node, r, now)).1)
      ensures forall d: string :: d != r.direction ==>
                View(Key(node, d)) == old(View(Key(node, d))) && Find(nodes[node], d) == Find(old(nodes)[node], d)
      ensures forall k: Key :: k.node != node ==> View(k) == old(View(k))
      ensures forall m: string :: m != node ==> DirectionsOf(m) == old(DirectionsOf(m))
    {
      hide Observe, Classify, PutEntry, Find;
      var held := UpdateDirection(Key(node, r.direction), Classify(r.pcu, r.queue, thresholds), now);
      var entry := Entry(r.direction, held);
      forall d: string ensures Find(PutEntry(nodes[node], entry), d) == if d == r.direction then Some(held) else Find(nodes[node], d) {
        FindPut(nodes[node], entry, d);
      }
      nodes := nodes[node := PutEntry(nodes[node], entry)];
    }

    /** One node of a snapshot: every reading takes one step, and the aggregate is the worst state among
        all directions the node ever had, those missing from this snapshot with their last state. */
    method UpdateNode(node: string, readings: seq<Reading>, now: real) returns (aggregate: TrafficState)
      requires forall i, j :: 0 <= i < j < |readings| ==> readings[i].direction != readings[j].direction
      modifies this
      ensures forall i :: 0 <= i < |readings| ==>
                && View(Key(node, readings[i].direction)) == old(Observed(node, readings[i], now)).0
                && Find(DirectionsOf(node), readings[i].direction) == Some(old(Observed(node, readings[i], now)).1)
      ensures forall d: string :: (forall i :: 0 <= i < |readings| ==> readings[i].direction != d) ==>
                View(Key(node, d)) == old(View(Key(node, d))) && Find(DirectionsOf(node), d) == old(Find(DirectionsOf(node), d))
      ensures forall k: Key :: k.node != node ==> View(k) == old(View(k))
      ensures forall n: string :: n != node ==> DirectionsOf(n) == old(DirectionsOf(n))
      ensures aggregate == Worst(States(DirectionsOf(node)))
    {
      hide Observe, Classify, PutEntry, Find, Worst, States;
      nodes := nodes[node := DirectionsOf(node)];
      for n := 0 to |readings|
        invariant node in nodes && forall m: string :: m != node ==> DirectionsOf(m) == old(DirectionsOf(m))
        invariant forall i :: 0 <= i < n ==>
                    && View(Key(node, readings[i].direction)) == old(Observed(node, readings[i], now)).0
                    && Find(nodes[node], readings[i].direction) == Some(old(Observed(node, readings[i], now)).1)
        invariant forall d: string :: (forall i :: 0 <= i < n ==> readings[i].direction != d) ==>
                    View(Key(node, d)) == old(View(Key(node, d))) && Find(nodes[node], d) == old(Find(DirectionsOf(node), d))
        invariant forall k: Key :: k.node != node ==> View(k) == old(View(k))
      {
        UpdateReading(node, readings[n], now);
      }
      aggregate := Worst(States(nodes[node]));
    }
  }
}
