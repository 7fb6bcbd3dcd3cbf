/** The signal controller as the source has it: an object whose methods drive a light in place.
    Each method is proved to compute the corresponding transition of `SignalControl`. */
module SignalController {
  import opened Options
  import opened Network
  import opened Phases
  import SC = SignalControl

  /** The light behind TraCI. */
  class TrafficLight {
    var phase: Phase
    var now: real
    var nextSwitch: real
    var prog: SC.Program
    ghost var shown: seq<Phase>

    constructor (p: Phase, prog: SC.Program)
      ensures phase == p && now == 0.0 && nextSwitch == prog.Of(p) && this.prog == prog && shown == [p]
    {
      phase, now, nextSwitch, this.prog, shown := p, 0.0, prog.Of(p), prog, [p];
    }

    method SetPhase(p: Phase)
      modifies this`phase, this`nextSwitch, this`shown
      ensures phase == p && nextSwitch == now + prog.Of(p) && shown == old(shown) + [p]
    {
      phase, nextSwitch, shown := p, now + prog.Of(p), shown + [p];
    }

    method SetPhaseDuration(d: real)
      modifies this`nextSwitch
      ensures nextSwitch == now + d
    {
      nextSwitch := now + d;
    }

    /** SUMO's step; whether and when the program advances is SUMO's choice. */
    method SimulationStep(dt: real, switched: bool, at: real)
      modifies this`phase, this`now, this`nextSwitch, this`shown
      ensures now == old(now) + dt
      ensures if switched then phase == old(phase).Next() && nextSwitch == at + prog.Of(phase) && shown == old(shown) + [phase]
              else phase == old(phase) && nextSwitch == old(nextSwitch) && shown == old(shown)
    {
      now := now + dt;
      if switched {
        phase := phase.Next();
        nextSwitch := at + prog.Of(phase);
        shown := shown + [phase];
      }
    }
  }

  function PhaseOfName(name: string): Option<Phase> {
    if name == "NS_GREEN" then Some(NsGreen)
    else if name == "NS_YELLOW" then Some(NsYellow)
    else if name == "EW_GREEN" then Some(EwGreen)
    else if name == "EW_YELLOW" then Some(EwYellow)
    else None
  }

  class SumoSignalController {
    var custom: int
    var pending: Option<Phase>
    var manual: bool
    var preempting: bool
    var preemptEnabled: bool

    constructor ()
      ensures custom == 0 && pending.None? && !manual && !preempting && preemptEnabled
    {
      custom, pending, manual, preempting, preemptEnabled := 0, None, false, false, true;
    }

    ghost function View(t: TrafficLight, m: SC.ControlMode): SC.Sys
      reads this, t
    {
      SC.Sys(t.phase, t.now, t.nextSwitch, t.prog, t.shown, custom, pending, manual, preempting, preemptEnabled, m)
    }

    function PhaseRemainingSeconds(t: TrafficLight): (r: int)
      reads t
      ensures r >= 0
    {
      var r := SC.Trunc(t.nextSwitch - t.now);
      if r > 0 then r else 0
    }

    function YellowDuration(t: TrafficLight): int
      reads t
    {
      SC.Trunc(t.prog.nsYellow)
    }

    function GreenDuration(t: TrafficLight): int
      reads this, t
    {
      if custom != 0 then custom else SC.Trunc(t.prog.nsGreen)
    }

    method ApplyManualHold(t: TrafficLight, ghost m: SC.ControlMode)
      modifies t`nextSwitch
      ensures View(t, m) == SC.ManualHold(old(View(t, m)))
    {
      if !manual {
        return;
      }
      if t.phase.IsYellow() && pending.Some? {
        return;
      }
      if PhaseRemainingSeconds(t) >= SC.HOLD_REFRESH_BELOW {
        return;
      }
      t.SetPhaseDuration(SC.MANUAL_HOLD_SEC);
    }

    method SetManualMode(t: TrafficLight, enabled: bool, ghost m: SC.ControlMode)
      modifies this`manual, this`preempting, this`preemptEnabled, t`nextSwitch
      ensures View(t, m) == SC.SetManualMode(old(View(t, m)), enabled)
    {
      manual := enabled;
      if enabled {
        preemptEnabled := false;
        preempting := false;
        ApplyManualHold(t, m);
      } else {
        var d := if t.phase.IsYellow() then YellowDuration(t) else GreenDuration(t);
        t.SetPhaseDuration((if d > 1 then d else 1) as real);
      }
    }

    /** force_phase by name; false for a name the vocabulary does not have, which changes nothing. */
    method ForcePhaseNamed(t: TrafficLight, name: string, ghost m: SC.ControlMode) returns (known: bool)
      modifies this`pending, t`phase, t`nextSwitch, t`shown
      ensures known <==> PhaseOfName(name).Some?
      ensures View(t, m) == if known then SC.ForcePhase(old(View(t, m)), PhaseOfName(name).value) else old(View(t, m))
    {
      known := PhaseOfName(name).Some?;
      if known {
        ForcePhase(t, PhaseOfName(name).value, m);
      }
    }

    method ForcePhase(t: TrafficLight, target: Phase, ghost m: SC.ControlMode)
      modifies this`pending, t`phase, t`nextSwitch, t`shown
      ensures View(t, m) == SC.ForcePhase(old(View(t, m)), target)
    {
      hide SC.ManualHold, SC.Trunc, SC.Remaining;
      if t.phase == target {
        pending := None;
        if manual {
          ApplyManualHold(t, m);
        }
      } else if t.phase.SameAxis(target) || target.IsYellow() {
        var wasYellow := t.phase.IsYellow();
        t.SetPhase(target);
        pending := None;
        if !wasYellow && manual && !target.IsYellow() {
          // An axis has only one green, so the source's hold in this branch is dead code.
          assert false;
        }
      } else {
        SwitchThroughYellow(t, target, m);
      }
    }

    /** Cross-axis green: keep or insert this axis's yellow and schedule the target.  Every green has
        its yellow, so the source's fallback for a missing one is dead code. */
    method SwitchThroughYellow(t: TrafficLight, target: Phase, ghost m: SC.ControlMode)
      requires target.IsGreen() && !t.phase.SameAxis(target)
      modifies this`pending, t`phase, t`nextSwitch, t`shown
      ensures View(t, m) == SC.ForcePhase(old(View(t, m)), target)
    {
      hide SC.ManualHold, SC.Trunc, SC.Remaining;
      if t.phase.IsGreen() {
        t.SetPhase(SC.FORCE_VIA_YELLOW[t.phase]);
      }
      pending := Some(target);
      t.SetPhaseDuration(YellowDuration(t) as real);
    }

    method TickPending(t: TrafficLight, ghost m: SC.ControlMode)
      modifies this`pending, t`phase, t`nextSwitch, t`shown
      ensures View(t, m) == SC.TickPending(old(View(t, m)))
    {
      if pending.None? {
        return;
      }
      if t.phase == pending.value {
        pending := None;
        if manual {
          ApplyManualHold(t, m);
        }
        return;
      }
      if t.phase.IsYellow() && PhaseRemainingSeconds(t) > 0 {
        return;
      }
      t.SetPhase(pending.value);
      pending := None;
      if manual {
        ApplyManualHold(t, m);
      }
    }

    /** `seen` tells for each approach whether an emergency vehicle is on one of its lanes. */
    method UpdatePreemption(t: TrafficLight, seen: Direction -> bool, ghost m: SC.ControlMode)
      modifies this`pending, this`preempting, t`phase, t`nextSwitch, t`shown
      ensures View(t, m) == SC.UpdatePreemption(old(View(t, m)), FirstSeen(seen))
    {
      if !preemptEnabled {
        if preempting {
          preempting := false;
        }
        return;
      }
      var directions := [North, South, East, West];
      var ev: Option<Direction> := None;
      var i := 0;
      while i < 4 && ev.None?
        invariant 0 <= i <= 4
        invariant ev.None? ==> (i > 0 ==> !seen(North)) && (i > 1 ==> !seen(South))
                               && (i > 2 ==> !seen(East)) && (i > 3 ==> !seen(West))
        invariant ev.Some? ==> ev == FirstSeen(seen)
        decreases 4 - i, ev.None?
      {
        if seen(directions[i]) {
          ev := Some(directions[i]);
        } else {
          i := i + 1;
        }
      }
      assert ev == FirstSeen(seen);
      if ev.Some? {
        var target := GreenPhaseFor(ev.value);
        preempting := true;
        if t.phase == target || pending == Some(target) {
          return;
        }
        ForcePhase(t, target, m);
      } else if preempting {
        preempting := false;
      }
    }

    method SetGreenDuration(t: TrafficLight, seconds: int, ghost m: SC.ControlMode)
      modifies this`custom, t`prog, t`nextSwitch
      ensures View(t, m) == SC.SetGreenDuration(old(View(t, m)), seconds)
      ensures 10 <= custom <= 120
    {
      custom := SC.Clamp(seconds);
      t.prog := t.prog.(nsGreen := custom as real, ewGreen := custom as real);
      if t.phase.IsGreen() {
        t.SetPhaseDuration(custom as real);
      }
    }
  }

  /** The first approach, in the order of DIRECTIONS, with an emergency vehicle. */
  function FirstSeen(seen: Direction -> bool): Option<Direction> {
    if seen(North) then Some(North) else if seen(South) then Some(South)
    else if seen(East) then Some(East) else if seen(West) then Some(West) else None
  }

  /** The part of the backend that drives one light. */
  class SumoBackend {
    const sig: SumoSignalController
    const tls: TrafficLight
    var mode: SC.ControlMode

    constructor (sig: SumoSignalController, tls: TrafficLight)
      ensures this.sig == sig && this.tls == tls && mode == SC.Fixed
    {
      this.sig, this.tls, mode := sig, tls, SC.Fixed;
    }

    ghost function View(): SC.Sys
      reads this, sig, tls
    {
      sig.View(tls, mode)
    }

    method ForcePhase(target: Phase)
      modifies sig, tls
      ensures View() == SC.BackendForce(old(View()), target)
    {
      sig.ForcePhase(tls, target, mode);
      if mode.Manual? {
        sig.ApplyManualHold(tls, mode);
      }
    }

    method SetControlMode(m: SC.ControlMode)
      modifies this, sig, tls
      ensures View() == SC.SetControlMode(old(View()), m)
    {
      mode := m;
      match m
      case Manual =>
        sig.SetManualMode(tls, true, m);
      case PreemptionEnabled =>
        sig.SetManualMode(tls, false, m);
        sig.preemptEnabled := true;
      case Fixed =>
        sig.SetManualMode(tls, false, m);
        sig.preemptEnabled := false;
        sig.preempting := false;
    }

    /** The signal part of a backend step: SUMO first, then the controller. */
    method Step(dt: real, switched: bool, at: real, seen: Direction -> bool)
      modifies sig, tls
      ensures View() == SC.Step(old(View()), dt, switched, at, FirstSeen(seen))
    {
      hide SC.TickPending, SC.ManualHold, SC.UpdatePreemption, FirstSeen;
      tls.SimulationStep(dt, switched, at);
      sig.TickPending(tls, mode);
      if sig.manual {
        sig.ApplyManualHold(tls, mode);
      } else {
        sig.UpdatePreemption(tls, seen, mode);
      }
    }
  }

  /** The agent's actions. */
  class ActionExecutor {
    var lastActions: map<string, int>

    constructor ()
      ensures lastActions == map[]
    {
      lastActions := map[];
    }

    function ValidActions(s: SumoSignalController, t: TrafficLight): set<int>
      reads s, t
    {
      {SC.KEEP, SC.SWITCH} + if t.phase.IsGreen() && s.pending.None? then {SC.EXTEND_5, SC.EXTEND_10} else {}
    }

    /** Applies the action, or KEEP when it is not valid, and reports which. */
    method Apply(node: string, action: int, s: SumoSignalController, t: TrafficLight, adaptive: bool, ghost m: SC.ControlMode)
      returns (applied: int)
      modifies this, s, t
      ensures applied == if action in SC.ValidActions(old(s.View(t, m))) then action else SC.KEEP
      ensures s.View(t, m) == SC.ApplyAction(old(s.View(t, m)), action, adaptive)
      ensures lastActions == old(lastActions)[node := applied]
    {
      hide SC.ForcePhase, SC.SetGreenDuration, SC.ManualHold, SC.Trunc;
      applied := if action in ValidActions(s, t) then action else SC.KEEP;
      if applied == SC.SWITCH {
        s.ForcePhase(t, if s.pending.Some? then s.pending.value else t.phase.Next(), m);
      } else if applied == SC.EXTEND_5 || applied == SC.EXTEND_10 {
        var delta := if applied == SC.EXTEND_5 then 5 else 10;
        s.SetGreenDuration(t, s.PhaseRemainingSeconds(t) + delta, m);
      }
      if adaptive {
        s.ApplyManualHold(t, m);
      }
      lastActions := lastActions[node := applied];
    }
  }
}
