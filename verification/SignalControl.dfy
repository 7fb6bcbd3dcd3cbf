/** One SUMO traffic light and everything that acts on it, as a state machine: the controller of
    `Visualize/simulation/signal_controller.py`, the step and the handlers of
    `Visualize/simulation/backend.py`, and the agent actions of
    `AI_Control_Traffic_Light/environment/action_executor.py`.

    SUMO itself is an assumption: a clocked four-phase program whose setPhase restarts the phase's
    own duration, whose setPhaseDuration sets the time left, and which advances at most once in a
    step, at some instant of that step not before the planned switch. */
module SignalControl {
  import opened Options
  import opened Network
  import opened Phases
  import opened Tracking

  /** Phase durations of the running program. */
  datatype Program = Program(nsGreen: real, nsYellow: real, ewGreen: real, ewYellow: real) {
    function Of(p: Phase): real {
      match p
      case NsGreen => nsGreen
      case NsYellow => nsYellow
      case EwGreen => ewGreen
      case EwYellow => ewYellow
    }
  }

  datatype ControlMode = Fixed | PreemptionEnabled | Manual

  /** The light, the controller's fields, and the history of the phases shown. */
  datatype Sys = Sys(
    phase: Phase, now: real, nextSwitch: real, prog: Program, shown: seq<Phase>,
    custom: int, pending: Option<Phase>, manual: bool, preempting: bool, preemptEnabled: bool,
    mode: ControlMode)

  const MANUAL_HOLD_SEC := 3600.0
  const HOLD_REFRESH_BELOW := 60

  // ----- the light -----

  function SetPhase(s: Sys, p: Phase): Sys {
    s.(phase := p, nextSwitch := s.now + s.prog.Of(p), shown := s.shown + [p])
  }

  function SetPhaseDuration(s: Sys, d: real): Sys {
    s.(nextSwitch := s.now + d)
  }

  /** A simulation step of length `dt`; with `switched` the program advances at time `at`. */
  function Simulate(s: Sys, dt: real, switched: bool, at: real): Sys {
    if !switched then s.(now := s.now + dt)
    else
      var next := s.phase.Next();
      s.(now := s.now + dt, phase := next, nextSwitch := at + s.prog.Of(next), shown := s.shown + [next])
  }

  predicate MaySimulate(s: Sys, dt: real, switched: bool, at: real) {
    && dt > 0.0
    && (switched ==> s.now <= at <= s.now + dt && s.nextSwitch <= at)
    && (!switched ==> s.now < s.nextSwitch)
  }

  // ----- the controller -----

  /** Python's int() of a float. */
  function Trunc(x: real): int {
    if x >= 0.0 then x.Floor else -(-x).Floor
  }

  function Remaining(s: Sys): (r: int)
    ensures r >= 0
    ensures s.nextSwitch >= s.now ==> r as real <= s.nextSwitch - s.now < r as real + 1.0
  {
    var r := Trunc(s.nextSwitch - s.now);
    if r > 0 then r else 0
  }

  function YellowDuration(s: Sys): int {
    Trunc(s.prog.nsYellow)
  }

  function GreenDuration(s: Sys): int {
    if s.custom != 0 then s.custom else Trunc(s.prog.nsGreen)
  }

  function ManualHold(s: Sys): Sys {
    if !s.manual || (s.phase.IsYellow() && s.pending.Some?) || Remaining(s) >= HOLD_REFRESH_BELOW then s
    else SetPhaseDuration(s, MANUAL_HOLD_SEC)
  }

  function HoldIfManual(s: Sys): Sys {
    if s.manual then ManualHold(s) else s
  }

  function SetManualMode(s: Sys, enabled: bool): Sys {
    if enabled then ManualHold(s.(manual := true, preemptEnabled := false, preempting := false))
    else
      var d := if s.phase.IsYellow() then YellowDuration(s) else GreenDuration(s);
      SetPhaseDuration(s.(manual := false), (if d > 1 then d else 1) as real)
  }

  function NextPhaseName(s: Sys): Phase {
    match s.pending case Some(p) => p case None => s.phase.Next()
  }

  const FORCE_VIA_YELLOW: map<Phase, Phase> := map[NsGreen := NsYellow, EwGreen := EwYellow]

  function ForcePhase(s: Sys, target: Phase): Sys {
    if s.phase == target then HoldIfManual(s.(pending := None))
    else if s.phase.IsYellow() then
      if s.phase.SameAxis(target) || target.IsYellow() then SetPhase(s, target).(pending := None)
      else SetPhaseDuration(s.(pending := Some(target)), YellowDuration(s) as real)
    else if s.phase.SameAxis(target) || target.IsYellow() then
      var t := SetPhase(s, target).(pending := None);
      if s.manual && !target.IsYellow() then ManualHold(t) else t
    else if s.phase in FORCE_VIA_YELLOW then
      var t := SetPhase(s, FORCE_VIA_YELLOW[s.phase]).(pending := Some(target));
      SetPhaseDuration(t, YellowDuration(s) as real)
    else HoldIfManual(SetPhase(s, target).(pending := None))
  }

  function TickPending(s: Sys): Sys {
    if s.pending.None? then s
    else if s.phase == s.pending.value then HoldIfManual(s.(pending := None))
    else if s.phase.IsYellow() && Remaining(s) > 0 then s
    else HoldIfManual(SetPhase(s, s.pending.value).(pending := None))
  }

  /** `ev` is the approach on which an emergency vehicle is seen, if any. */
  function UpdatePreemption(s: Sys, ev: Option<Direction>): Sys {
    if !s.preemptEnabled then s.(preempting := false)
    else match ev
      case Some(d) =>
        var t := s.(preempting := true);
        var target := GreenPhaseFor(d);
        if s.phase == target || s.pending == Some(target) then t else ForcePhase(t, target)
      case None => s.(preempting := false)
  }

  function Clamp(seconds: int): int {
    if seconds < 10 then 10 else if seconds > 120 then 120 else seconds
  }

  function SetGreenDuration(s: Sys, seconds: int): Sys {
    var sec := Clamp(seconds);
    var t := s.(custom := sec, prog := s.prog.(nsGreen := sec as real, ewGreen := sec as real));
    if s.phase.IsGreen() then SetPhaseDuration(t, sec as real) else t
  }

  // ----- the backend -----

  function BackendForce(s: Sys, target: Phase): Sys {
    var t := ForcePhase(s, target);
    if s.mode.Manual? then ManualHold(t) else t
  }

  function SetControlMode(s: Sys, m: ControlMode): Sys {
    var t := SetManualMode(s.(mode := m), m.Manual?);
    match m
    case Manual => t
    case PreemptionEnabled => t.(preemptEnabled := true)
    case Fixed => t.(preemptEnabled := false, preempting := false)
  }

  function Step(s: Sys, dt: real, switched: bool, at: real, ev: Option<Direction>): Sys {
    var t := TickPending(Simulate(s, dt, switched, at));
    if t.manual then ManualHold(t) else UpdatePreemption(t, ev)
  }

  // ----- agent actions -----

  const KEEP := 0
  const SWITCH := 1
  const EXTEND_5 := 2
  const EXTEND_10 := 3

  function ValidActions(s: Sys): set<int> {
    {KEEP, SWITCH} + if s.phase.IsGreen() && s.pending.None? then {EXTEND_5, EXTEND_10} else {}
  }

  function ApplyAction(s: Sys, action: int, adaptive: bool): Sys {
    var applied := if action in ValidActions(s) then action else KEEP;
    var t :=
      if applied == SWITCH then ForcePhase(s, NextPhaseName(s))
      else if applied == EXTEND_5 then SetGreenDuration(s, Remaining(s) + 5)
      else if applied == EXTEND_10 then SetGreenDuration(s, Remaining(s) + 10)
      else s;
    if adaptive then ManualHold(t) else t
  }

  function EnterAdaptive(s: Sys): Sys {
    SetManualMode(s, true).(preemptEnabled := false, preempting := false)
  }

  function ExitAdaptive(s: Sys): Sys {
    SetManualMode(s, false).(preemptEnabled := false)
  }

  // ----- runs -----

  datatype Event =
    | Force(target: Phase)
    | BackendForcing(target: Phase)
    | Green(seconds: int)
    | Mode(m: ControlMode)
    | ManualSwitch(enabled: bool)
    | Action(action: int, adaptive: bool)
    | Enter
    | Leave
    | Advance(dt: real, switched: bool, at: real, ev: Option<Direction>)

  function Apply(s: Sys, e: Event): Sys {
    match e
    case Force(p) => ForcePhase(s, p)
    case BackendForcing(p) => BackendForce(s, p)
    case Green(n) => SetGreenDuration(s, n)
    case Mode(m) => SetControlMode(s, m)
    case ManualSwitch(b) => SetManualMode(s, b)
    case Action(a, adaptive) => ApplyAction(s, a, adaptive)
    case Enter => EnterAdaptive(s)
    case Leave => ExitAdaptive(s)
    case Advance(dt, switched, at, ev) => Step(s, dt, switched, at, ev)
  }

  predicate Enabled(s: Sys, e: Event) {
    e.Advance? ==> MaySimulate(s, e.dt, e.switched, e.at)
  }

  function Run(s: Sys, es: seq<Event>): Sys
    decreases |es|
  {
    if es == [] then s else Run(Apply(s, es[0]), es[1..])
  }

  predicate Legal(s: Sys, es: seq<Event>)
    decreases |es|
  {
    es == [] || (Enabled(s, es[0]) && Legal(Apply(s, es[0]), es[1..]))
  }

  predicate Initial(s: Sys) {
    s.pending.None? && s.shown == [s.phase] && !s.manual
  }

  // ----- safety -----

  /** Two greens of different axes never stand next to each other in the history. */
  ghost predicate NoDirectSwap(shown: seq<Phase>) {
    forall i :: 0 <= i < |shown| - 1 ==>
      !(shown[i].IsGreen() && shown[i + 1].IsGreen() && !shown[i].SameAxis(shown[i + 1]))
  }

  /** A scheduled target is a green, and the other axis is showing yellow. */
  ghost predicate PendingOk(s: Sys) {
    s.pending.Some? ==>
      s.pending.value.IsGreen() && s.phase.IsYellow() && !s.phase.SameAxis(s.pending.value)
  }

  ghost predicate Inv(s: Sys) {
    |s.shown| > 0 && s.shown[|s.shown| - 1] == s.phase && NoDirectSwap(s.shown) && PendingOk(s)
  }

  /** Showing one more phase is safe unless it swaps greens. */
  lemma ShowMore(shown: seq<Phase>, p: Phase)
    requires |shown| > 0 && NoDirectSwap(shown)
    requires var last := shown[|shown| - 1]; !(last.IsGreen() && p.IsGreen() && !last.SameAxis(p))
    ensures NoDirectSwap(shown + [p])
  {
  }

  /** What force_phase does to the lights and the schedule, timers aside. */
  lemma ForceLights(s: Sys, target: Phase)
    ensures var t := ForcePhase(s, target);
            if s.phase == target then
              t.phase == s.phase && t.shown == s.shown && t.pending.None?
            else if s.phase.SameAxis(target) || target.IsYellow() then
              t.phase == target && t.shown == s.shown + [target] && t.pending.None?
            else if s.phase.IsYellow() then
              t.phase == s.phase && t.shown == s.shown && t.pending == Some(target)
            else
              t.phase == s.phase.Next() && t.shown == s.shown + [s.phase.Next()] && t.pending == Some(target)
  {
    TimersKeepLights(s.(pending := None), false, Fixed, 0);
    TimersKeepLights(SetPhase(s, target).(pending := None), false, Fixed, 0);
    hide ManualHold, Trunc, Program.Of;
  }

  lemma ForceKeepsInv(s: Sys, target: Phase)
    requires Inv(s)
    ensures Inv(ForcePhase(s, target))
  {
    hide NoDirectSwap, ForcePhase;
    ForceLights(s, target);
    ShowMoreAll(s);
  }

  lemma ShowMoreAll(s: Sys)
    requires Inv(s)
    ensures forall p: Phase :: !(s.phase.IsGreen() && p.IsGreen() && !s.phase.SameAxis(p)) ==> NoDirectSwap(s.shown + [p])
  {
    forall p: Phase | !(s.phase.IsGreen() && p.IsGreen() && !s.phase.SameAxis(p)) ensures NoDirectSwap(s.shown + [p]) {
      ShowMore(s.shown, p);
    }
  }

  /** Right after SUMO advanced, a scheduled target is either already shown or the other axis still
      shows yellow; so the branch of tick_pending that would set it from a green is never taken. */
  lemma AfterSimulate(s: Sys, dt: real, switched: bool, at: real)
    requires Inv(s)
    ensures var t := Simulate(s, dt, switched, at);
            && |t.shown| > 0 && t.shown[|t.shown| - 1] == t.phase && NoDirectSwap(t.shown)
            && (t.pending.Some? ==> t.pending.value.IsGreen() && (t.phase == t.pending.value || PendingOk(t)))
  {
    ShowMoreAll(s);
  }

  /** Holds, mode changes and green durations touch neither the lights nor the scheduled target. */
  predicate SameLights(s: Sys, t: Sys) {
    s.phase == t.phase && s.shown == t.shown && s.pending == t.pending
  }

  lemma TimersKeepLights(s: Sys, b: bool, m: ControlMode, n: int)
    ensures SameLights(s, ManualHold(s)) && SameLights(s, HoldIfManual(s))
    ensures SameLights(s, SetManualMode(s, b)) && SameLights(s, SetControlMode(s, m))
    ensures SameLights(s, SetGreenDuration(s, n))
    ensures SameLights(s, EnterAdaptive(s)) && SameLights(s, ExitAdaptive(s))
  {
  }

  lemma TickKeepsInv(t: Sys)
    requires |t.shown| > 0 && t.shown[|t.shown| - 1] == t.phase && NoDirectSwap(t.shown)
    requires t.pending.Some? ==> t.pending.value.IsGreen() && (t.phase == t.pending.value || PendingOk(t))
    ensures Inv(TickPending(t))
  {
    if t.pending.Some? && t.phase != t.pending.value {
      ShowMore(t.shown, t.pending.value);
      TimersKeepLights(SetPhase(t, t.pending.value).(pending := None), false, Fixed, 0);
    }
  }

  lemma StepKeepsInv(s: Sys, dt: real, switched: bool, at: real, ev: Option<Direction>)
    requires Inv(s)
    ensures Inv(Step(s, dt, switched, at, ev))
  {
    hide Simulate, TickPending, ManualHold, ForcePhase, NoDirectSwap;
    AfterSimulate(s, dt, switched, at);
    var u := TickPending(Simulate(s, dt, switched, at));
    TickKeepsInv(Simulate(s, dt, switched, at));
    TimersKeepLights(u, false, Fixed, 0);
    if ev.Some? {
      ForceKeepsInv(u.(preempting := true), GreenPhaseFor(ev.value));
    }
  }

  lemma ApplyKeepsInv(s: Sys, e: Event)
    requires Inv(s) && Enabled(s, e)
    ensures Inv(Apply(s, e))
  {
    hide Step, ForcePhase, NoDirectSwap, ManualHold, SetManualMode, SetControlMode, SetGreenDuration;
    hide EnterAdaptive, ExitAdaptive;
    match e
    case Force(p) => ForceKeepsInv(s, p);
    case BackendForcing(p) =>
      ForceKeepsInv(s, p);
      TimersKeepLights(ForcePhase(s, p), false, Fixed, 0);
    case Action(a, adaptive) => ActionKeepsInv(s, a, adaptive);
    case Advance(dt, switched, at, ev) => StepKeepsInv(s, dt, switched, at, ev);
    case Green(n) => TimersKeepLights(s, false, Fixed, n);
    case Mode(m) => TimersKeepLights(s, false, m, 0);
    case ManualSwitch(b) => TimersKeepLights(s, b, Fixed, 0);
    case _ => TimersKeepLights(s, false, Fixed, 0);
  }

  /** An action leaves the lights alone or forces the next phase. */
  lemma ActionIsForceOrTimer(s: Sys, a: int, adaptive: bool)
    ensures SameLights(s, ApplyAction(s, a, adaptive))
            || SameLights(ForcePhase(s, NextPhaseName(s)), ApplyAction(s, a, adaptive))
  {
    hide ForcePhase, ManualHold, SetGreenDuration;
    TimersKeepLights(s, false, Fixed, Remaining(s) + 5);
    TimersKeepLights(s, false, Fixed, Remaining(s) + 10);
    TimersKeepLights(SetGreenDuration(s, Remaining(s) + 5), false, Fixed, 0);
    TimersKeepLights(SetGreenDuration(s, Remaining(s) + 10), false, Fixed, 0);
    TimersKeepLights(ForcePhase(s, NextPhaseName(s)), false, Fixed, 0);
  }

  lemma ActionKeepsInv(s: Sys, a: int, adaptive: bool)
    requires Inv(s)
    ensures Inv(ApplyAction(s, a, adaptive))
  {
    hide ForcePhase, ApplyAction, NoDirectSwap;
    ActionIsForceOrTimer(s, a, adaptive);
    ForceKeepsInv(s, NextPhaseName(s));
  }

  lemma {:induction false} RunKeepsInv(s: Sys, es: seq<Event>)
    requires Inv(s) && Legal(s, es)
    ensures Inv(Run(s, es))
    decreases |es|
  {
    if es != [] {
      ApplyKeepsInv(s, es[0]);
      RunKeepsInv(Apply(s, es[0]), es[1..]);
    }
  }

  /** Safety over every run: whatever is commanded, preempted, held or learned, in any order, one
      axis's green is never followed directly by the other axis's green. */
  lemma NeverSwapsGreens(s: Sys, es: seq<Event>)
    requires Initial(s) && Legal(s, es)
    ensures NoDirectSwap(Run(s, es).shown) && PendingOk(Run(s, es))
    ensures var shown := Run(s, es).shown;
            forall i, d, e :: 0 <= i < |shown| - 1 && ColorOf(shown[i], d).Green? && ColorOf(shown[i + 1], e).Green? ==> SameRoad(d, e)
  {
    RunKeepsInv(s, es);
  }

  // ----- own yellow -----

  /** A green light is forced to the other axis's yellow. */
  predicate CrossYellow(s: Sys, e: Event) {
    (e.Force? || e.BackendForcing?) && s.phase.IsGreen() && e.target.IsYellow() && e.target != s.phase.Next()
  }

  predicate NoCrossYellow(s: Sys, es: seq<Event>)
    decreases |es|
  {
    es == [] || (!CrossYellow(s, es[0]) && NoCrossYellow(Apply(s, es[0]), es[1..]))
  }

  /** A green is left only for its own yellow. */
  ghost predicate OwnYellow(shown: seq<Phase>) {
    forall i :: 0 <= i < |shown| - 1 && shown[i].IsGreen() ==> shown[i + 1] == shown[i].Next()
  }

  ghost predicate Tidy(s: Sys) {
    Inv(s) && OwnYellow(s.shown)
  }

  lemma OwnYellowMore(s: Sys)
    requires Tidy(s)
    ensures forall p: Phase :: (s.phase.IsGreen() ==> p == s.phase.Next()) ==> OwnYellow(s.shown + [p])
  {
    forall p: Phase | s.phase.IsGreen() ==> p == s.phase.Next() ensures OwnYellow(s.shown + [p]) {
      var t := s.shown + [p];
      forall i | 0 <= i < |t| - 1 && t[i].IsGreen() ensures t[i + 1] == t[i].Next() {
        if i < |s.shown| - 1 {
          assert t[i + 1] == s.shown[i + 1];
        }
      }
    }
  }

  lemma ForceKeepsTidy(s: Sys, target: Phase)
    requires Tidy(s) && !CrossYellow(s, Force(target))
    ensures Tidy(ForcePhase(s, target))
  {
    hide Inv, OwnYellow, ForcePhase;
    ForceKeepsInv(s, target);
    ForceLights(s, target);
    OwnYellowMore(s);
    InvLast(s);
  }

  lemma InvLast(s: Sys)
    requires Inv(s)
    ensures s.pending.Some? ==> s.pending.value.IsGreen() && s.phase.IsYellow() && !s.phase.SameAxis(s.pending.value)
  {
  }

  lemma ApplyKeepsTidy(s: Sys, e: Event)
    requires Tidy(s) && Enabled(s, e) && !CrossYellow(s, e)
    ensures Tidy(Apply(s, e))
  {
    hide Inv, Step, ForcePhase, OwnYellow, ManualHold, SetManualMode, SetControlMode, SetGreenDuration;
    hide EnterAdaptive, ExitAdaptive, ApplyAction;
    ApplyKeepsInv(s, e);
    match e
    case Force(p) => ForceKeepsTidy(s, p);
    case BackendForcing(p) =>
      ForceKeepsTidy(s, p);
      TimersKeepLights(ForcePhase(s, p), false, Fixed, 0);
    case Action(a, adaptive) =>
      InvLast(s);
      ForceKeepsTidy(s, NextPhaseName(s));
      ActionIsForceOrTimer(s, a, adaptive);
    case Advance(dt, switched, at, ev) => StepKeepsTidy(s, dt, switched, at, ev);
    case Green(n) => TimersKeepLights(s, false, Fixed, n);
    case Mode(m) => TimersKeepLights(s, false, m, 0);
    case ManualSwitch(b) => TimersKeepLights(s, b, Fixed, 0);
    case _ => TimersKeepLights(s, false, Fixed, 0);
  }

  lemma SimulateTidy(s: Sys, dt: real, switched: bool, at: real)
    requires Tidy(s)
    ensures OwnYellow(Simulate(s, dt, switched, at).shown)
  {
    OwnYellowMore(s);
  }

  lemma TickTidy(t: Sys)
    requires |t.shown| > 0 && t.shown[|t.shown| - 1] == t.phase && OwnYellow(t.shown)
    requires t.pending.Some? ==> t.phase == t.pending.value || t.phase.IsYellow()
    ensures OwnYellow(TickPending(t).shown)
  {
    if t.pending.Some? && t.phase != t.pending.value {
      OwnYellowAfterYellow(t.shown, t.pending.value);
      TimersKeepLights(SetPhase(t, t.pending.value).(pending := None), false, Fixed, 0);
    }
  }

  lemma OwnYellowAfterYellow(shown: seq<Phase>, p: Phase)
    requires |shown| > 0 && shown[|shown| - 1].IsYellow() && OwnYellow(shown)
    ensures OwnYellow(shown + [p])
  {
    var t := shown + [p];
    forall i | 0 <= i < |t| - 1 && t[i].IsGreen() ensures t[i + 1] == t[i].Next() {
      assert t[i] == shown[i] && t[i + 1] == shown[i + 1];
    }
  }

  lemma StepKeepsTidy(s: Sys, dt: real, switched: bool, at: real, ev: Option<Direction>)
    requires Tidy(s)
    ensures Tidy(Step(s, dt, switched, at, ev))
  {
    hide Simulate, TickPending, ManualHold, ForcePhase, NoDirectSwap, OwnYellow;
    AfterSimulate(s, dt, switched, at);
    SimulateTidy(s, dt, switched, at);
    var t := Simulate(s, dt, switched, at);
    TickKeepsInv(t);
    TickTidy(t);
    var u := TickPending(t);
    StepKeepsInv(s, dt, switched, at, ev);
    TimersKeepLights(u, false, Fixed, 0);
    if ev.Some? {
      ForceKeepsTidy(u.(preempting := true), GreenPhaseFor(ev.value));
    }
  }

  /** Every event only adds to the history, and a forced cross yellow adds it right after the green. */
  lemma ApplyShows(s: Sys, e: Event)
    requires Inv(s) && Enabled(s, e)
    ensures s.shown <= Apply(s, e).shown
    ensures CrossYellow(s, e) ==> Apply(s, e).shown == s.shown + [e.target]
  {
    hide Inv, Step, ForcePhase, ManualHold, SetManualMode, SetControlMode, SetGreenDuration;
    hide EnterAdaptive, ExitAdaptive, ApplyAction;
    match e
    case Force(p) => ForceLights(s, p);
    case BackendForcing(p) =>
      ForceLights(s, p);
      TimersKeepLights(ForcePhase(s, p), false, Fixed, 0);
    case Action(a, adaptive) =>
      ForceLights(s, NextPhaseName(s));
      ActionIsForceOrTimer(s, a, adaptive);
    case Advance(dt, switched, at, ev) => StepShows(s, dt, switched, at, ev);
    case Green(n) => TimersKeepLights(s, false, Fixed, n);
    case Mode(m) => TimersKeepLights(s, false, m, 0);
    case ManualSwitch(b) => TimersKeepLights(s, b, Fixed, 0);
    case _ => TimersKeepLights(s, false, Fixed, 0);
  }

  lemma TickShows(t: Sys)
    ensures t.shown <= TickPending(t).shown
  {
    hide ManualHold, Program.Of, Remaining;
    TimersKeepLights(t.(pending := None), false, Fixed, 0);
    if t.pending.Some? {
      TimersKeepLights(SetPhase(t, t.pending.value).(pending := None), false, Fixed, 0);
    }
  }

  lemma StepShows(s: Sys, dt: real, switched: bool, at: real, ev: Option<Direction>)
    ensures s.shown <= Step(s, dt, switched, at, ev).shown
  {
    hide ManualHold, ForcePhase, Program.Of, TickPending;
    TickShows(Simulate(s, dt, switched, at));
    var u := TickPending(Simulate(s, dt, switched, at));
    TimersKeepLights(u, false, Fixed, 0);
    if ev.Some? {
      ForceLights(u.(preempting := true), GreenPhaseFor(ev.value));
    }
  }

  lemma {:induction false} RunShows(s: Sys, es: seq<Event>)
    requires Inv(s) && Legal(s, es)
    ensures s.shown <= Run(s, es).shown
    decreases |es|
  {
    if es != [] {
      ApplyShows(s, es[0]);
      ApplyKeepsInv(s, es[0]);
      RunShows(Apply(s, es[0]), es[1..]);
    }
  }

  /** Once shown, a green followed by the wrong yellow stays in the history. */
  lemma CrossYellowStays(s: Sys, p: Phase, later: seq<Phase>)
    requires Inv(s) && s.phase.IsGreen() && p != s.phase.Next() && s.shown + [p] <= later
    ensures !OwnYellow(later)
  {
    var i := |s.shown| - 1;
    assert later[i] == (s.shown + [p])[i] && later[i + 1] == (s.shown + [p])[i + 1];
  }

  /** Over every run, each axis leaves green only through its own yellow exactly when nobody forces a
      green light to the other axis's yellow. */
  lemma {:induction false} LeavesGreenByOwnYellow(s: Sys, es: seq<Event>)
    requires Tidy(s) && Legal(s, es)
    ensures OwnYellow(Run(s, es).shown) <==> NoCrossYellow(s, es)
    decreases |es|
  {
    hide Inv, Apply, OwnYellow, Enabled;
    if es != [] {
      var t := Apply(s, es[0]);
      if CrossYellow(s, es[0]) {
        ApplyShows(s, es[0]);
        ApplyKeepsInv(s, es[0]);
        RunShows(t, es[1..]);
        CrossYellowStays(s, es[0].target, Run(s, es).shown);
      } else {
        ApplyKeepsTidy(s, es[0]);
        LeavesGreenByOwnYellow(t, es[1..]);
      }
    }
  }

  /** Every run of the light starts tidy. */
  lemma InitialIsTidy(s: Sys)
    requires Initial(s)
    ensures Tidy(s)
  {
  }

  /** Green to the other axis's yellow is not prevented. */
  lemma CrossYellowIsDirect(s: Sys)
    requires Initial(s) && s.phase == NsGreen
    ensures Run(s, [Force(EwYellow)]).shown == [NsGreen, EwYellow] && !OwnYellow(Run(s, [Force(EwYellow)]).shown)
  {
    assert Run(s, [Force(EwYellow)]) == Run(Apply(s, Force(EwYellow)), []);
    InitialIsTidy(s);
    LeavesGreenByOwnYellow(s, [Force(EwYellow)]);
  }

  /** In every reachable state, the branch of tick_pending for a light that is neither yellow nor
      on target is dead code. */
  lemma TickFindsYellowOrTarget(s: Sys, es: seq<Event>, dt: real, switched: bool, at: real)
    requires Initial(s) && Legal(s, es)
    ensures var t := Simulate(Run(s, es), dt, switched, at);
            t.pending.Some? ==> t.phase == t.pending.value || t.phase.IsYellow()
  {
    RunKeepsInv(s, es);
    AfterSimulate(Run(s, es), dt, switched, at);
  }

  // ----- how long a cross-axis switch takes -----

  /** Only simulation steps of at most `d` seconds, with no emergency vehicle in sight. */
  predicate QuietSteps(es: seq<Event>, d: real) {
    forall i :: 0 <= i < |es| ==> es[i].Advance? && es[i].ev.None? && es[i].dt <= d
  }

  function AtLeast0(x: int): int { if x > 0 then x else 0 }

  /** Time at which the scheduled target was reached, if it was. */
  function ReachedAt(s: Sys, es: seq<Event>): Option<real>
    decreases |es|
  {
    if s.pending.None? then Some(s.now)
    else if es == [] then None
    else ReachedAt(Apply(s, es[0]), es[1..])
  }

  /** Waiting in yellow for `target` since `t0`, with `y` seconds of yellow planned. */
  predicate Waits(s: Sys, target: Phase, t0: real, y: int) {
    && s.pending == Some(target) && target.IsGreen() && s.phase.IsYellow() && !s.phase.SameAxis(target)
    && s.nextSwitch == t0 + y as real && 0.0 <= s.now - t0 <= AtLeast0(y - 1) as real
  }

  /** One step either keeps waiting, with at least a second left, or reaches the target. */
  lemma WaitStep(s: Sys, target: Phase, t0: real, y: int, dt: real, switched: bool, at: real)
    requires Waits(s, target, t0, y) && MaySimulate(s, dt, switched, at) && y >= 0
    ensures var t := Step(s, dt, switched, at, None);
            && t.now == s.now + dt
            && (t.pending.Some? ==> Waits(t, target, t0, y) && t.now - t0 <= (y - 1) as real)
            && (t.pending.None? ==> t.phase == target && t.now - t0 > (y - 1) as real)
  {
    var u := Simulate(s, dt, switched, at);
    var v := TickPending(u);
    WaitTick(u, target, t0, y);
    hide TickPending, Remaining;
  }

  /** What tick_pending makes of a light that was waiting for `target` before the step. */
  lemma WaitTick(u: Sys, target: Phase, t0: real, y: int)
    requires u.pending == Some(target) && u.now >= t0 && y >= 0
    requires target.IsGreen() && (u.phase == target || (u.phase.IsYellow() && !u.phase.SameAxis(target)))
    requires u.phase == target ==> u.now - t0 > (y - 1) as real
    requires u.phase != target ==> u.nextSwitch == t0 + y as real
    ensures var v := TickPending(u);
            && v.now == u.now
            && (v.pending.Some? ==> v == u && Waits(v, target, t0, y) && v.now - t0 <= (y - 1) as real)
            && (v.pending.None? ==> v.phase == target && v.now - t0 > (y - 1) as real)
  {
    TimersKeepLights(u.(pending := None), false, Fixed, 0);
    TimersKeepLights(SetPhase(u, target).(pending := None), false, Fixed, 0);
  }

  lemma {:induction false} WaitRun(s: Sys, es: seq<Event>, d: real, target: Phase, t0: real, y: int)
    requires Waits(s, target, t0, y) && Legal(s, es) && QuietSteps(es, d) && y >= 0
    ensures ReachedAt(s, es).Some? ==>
              (y - 1) as real < ReachedAt(s, es).value - t0 <= AtLeast0(y - 1) as real + d
    ensures ReachedAt(s, es).None? ==> es == [] || Run(s, es).now - t0 <= (y - 1) as real
    decreases |es|
  {
    if es != [] {
      var e := es[0];
      WaitStep(s, target, t0, y, e.dt, e.switched, e.at);
      var t := Apply(s, e);
      if t.pending.Some? {
        assert QuietSteps(es[1..], d);
        WaitRun(t, es[1..], d, target, t0, y);
      }
    }
  }

  /** A cross-axis force from green waits in the own yellow for its whole duration. */
  lemma CrossForceWaits(s: Sys, target: Phase)
    requires s.phase.IsGreen() && target.IsGreen() && s.phase != target && s.prog.nsYellow >= 0.0
    ensures Waits(ForcePhase(s, target), target, s.now, YellowDuration(s)) && YellowDuration(s) >= 0
    ensures ForcePhase(s, target).phase == s.phase.Next() && ForcePhase(s, target).now == s.now
  {
  }

  /** A cross-axis force from green, with nothing but steps of at most `d` seconds after it: the
      target is reached more than Y-1 seconds later and at most d seconds after max(Y-1, 0), where
      Y is the yellow duration; and while it is not reached, at most Y-1 seconds have passed. */
  lemma CrossForceTiming(s: Sys, target: Phase, es: seq<Event>, d: real)
    requires s.phase.IsGreen() && target.IsGreen() && s.phase != target && s.prog.nsYellow >= 0.0
    requires Legal(ForcePhase(s, target), es) && QuietSteps(es, d)
    ensures var t, y := ForcePhase(s, target), YellowDuration(s);
            && t.phase == s.phase.Next()
            && (ReachedAt(t, es).Some? ==>
                  (y - 1) as real < ReachedAt(t, es).value - s.now <= AtLeast0(y - 1) as real + d)
            && (ReachedAt(t, es).None? ==> es == [] || Run(t, es).now - s.now <= (y - 1) as real)
  {
    hide ForcePhase, YellowDuration, Waits;
    CrossForceWaits(s, target);
    WaitRun(ForcePhase(s, target), es, d, target, s.now, YellowDuration(s));
  }

  // ----- what an emergency vehicle gets -----

  /** The light gives way to side `d`: it shows it green, or the road that crosses it is in yellow and a
      phase that gives it green is scheduled next. */
  predicate GivesWay(s: Sys, d: Direction) {
    || ColorOf(s.phase, d).Green?
    || (ColorOf(s.phase, d).Red? && s.phase.IsYellow() && s.pending.Some? && ColorOf(s.pending.value, d).Green?)
  }

  /** In every reachable state that preempts, one step that sees an emergency vehicle on `d` gives way to it. */
  lemma PreemptionGivesWay(s: Sys, dt: real, switched: bool, at: real, d: Direction)
    requires Inv(s) && s.preemptEnabled && !s.manual
    ensures GivesWay(Step(s, dt, switched, at, Some(d)), d)
  {
    hide UpdatePreemption, TickPending, ManualHold, NoDirectSwap, GivesWay;
    var u := Simulate(s, dt, switched, at);
    AfterSimulate(s, dt, switched, at);
    TickKeepsInv(u);
    TickKeepsModes(u);
    GivesWayNow(TickPending(u), d);
  }

  lemma GivesWayNow(t: Sys, d: Direction)
    requires PendingOk(t) && t.preemptEnabled
    ensures GivesWay(UpdatePreemption(t, Some(d)), d)
  {
    hide ForcePhase;
    ForceLights(t.(preempting := true), GreenPhaseFor(d));
  }

  lemma TickKeepsModes(u: Sys)
    ensures SameModes(TickPending(u), u)
  {
    hide ManualHold, Remaining, Program.Of;
    HoldKeepsClock(u.(pending := None));
    if u.pending.Some? {
      HoldKeepsClock(SetPhase(u, u.pending.value).(pending := None));
    }
  }

  /** Preemption takes no green away from the side that has it, nor a yellow that is on its way to it;
      and without an emergency vehicle, or switched off, it touches nothing. */
  lemma PreemptionKeepsGreen(s: Sys, ev: Option<Direction>)
    requires s.preemptEnabled && ev.Some? ==>
               ColorOf(s.phase, ev.value).Green? || (s.pending.Some? && ColorOf(s.pending.value, ev.value).Green?)
    ensures SameLights(s, UpdatePreemption(s, ev)) && UpdatePreemption(s, ev).nextSwitch == s.nextSwitch
  {
  }

  /** A scheduled target waits no longer than one yellow, or one second. */
  ghost predicate WaitBounded(s: Sys) {
    s.pending.Some? ==> s.nextSwitch - s.now <= (AtLeast0(YellowDuration(s) - 1) + 1) as real
  }

  lemma ForceBoundsWait(s: Sys, p: Phase)
    ensures WaitBounded(ForcePhase(s, p))
  {
    TimersKeepLights(s.(pending := None), false, Fixed, 0);
    TimersKeepLights(SetPhase(s, p).(pending := None), false, Fixed, 0);
    HoldKeepsClock(s.(pending := None));
    HoldKeepsClock(SetPhase(s, p).(pending := None));
    hide ManualHold, Trunc;
  }

  lemma HoldBoundsWait(s: Sys)
    requires WaitBounded(s) && PendingOk(s)
    ensures WaitBounded(ManualHold(s))
  {
    hide Trunc;
  }

  lemma ManualModeBoundsWait(s: Sys, b: bool)
    requires WaitBounded(s) && PendingOk(s)
    ensures WaitBounded(SetManualMode(s, b))
  {
    HoldBoundsWait(s.(manual := true, preemptEnabled := false, preempting := false));
    hide Trunc, ManualHold;
  }

  lemma GreenBoundsWait(s: Sys, n: int)
    requires WaitBounded(s) && PendingOk(s)
    ensures WaitBounded(SetGreenDuration(s, n))
  {
    hide Trunc, Clamp;
  }

  lemma TimersBoundWait(s: Sys, b: bool, m: ControlMode, n: int)
    requires WaitBounded(s) && PendingOk(s)
    ensures WaitBounded(ManualHold(s)) && WaitBounded(HoldIfManual(s)) && WaitBounded(SetManualMode(s, b))
    ensures WaitBounded(SetControlMode(s, m)) && WaitBounded(SetGreenDuration(s, n))
    ensures WaitBounded(EnterAdaptive(s)) && WaitBounded(ExitAdaptive(s))
  {
    hide Trunc, ManualHold, SetManualMode, SetGreenDuration;
    HoldBoundsWait(s);
    ManualModeBoundsWait(s, b);
    ManualModeBoundsWait(s, true);
    ManualModeBoundsWait(s, false);
    ManualModeBoundsWait(s.(mode := m), m.Manual?);
    GreenBoundsWait(s, n);
  }

  lemma StepBoundsWait(s: Sys, dt: real, switched: bool, at: real, ev: Option<Direction>)
    requires Inv(s) && WaitBounded(s) && dt > 0.0
    ensures WaitBounded(Step(s, dt, switched, at, ev))
  {
    hide TickPending, ForcePhase, ManualHold, NoDirectSwap, Trunc;
    AfterSimulate(s, dt, switched, at);
    var u := Simulate(s, dt, switched, at);
    TickKeepsInv(u);
    TickBoundsWait(u);
    var t := TickPending(u);
    HoldBoundsWait(t);
    if ev.Some? {
      ForceBoundsWait(t.(preempting := true), GreenPhaseFor(ev.value));
    }
  }

  lemma TickBoundsWait(u: Sys)
    requires u.pending.Some? && u.phase != u.pending.value ==> WaitBounded(u)
    ensures WaitBounded(TickPending(u))
  {
    if u.pending.Some? {
      TimersKeepLights(u.(pending := None), false, Fixed, 0);
      TimersKeepLights(SetPhase(u, u.pending.value).(pending := None), false, Fixed, 0);
    }
    hide HoldIfManual, Trunc;
  }

  lemma ApplyBoundsWait(s: Sys, e: Event)
    requires Inv(s) && WaitBounded(s) && Enabled(s, e)
    ensures WaitBounded(Apply(s, e))
  {
    hide Step, ForcePhase, NoDirectSwap, ManualHold, SetManualMode, SetControlMode, SetGreenDuration, WaitBounded;
    hide EnterAdaptive, ExitAdaptive, PendingOk, ApplyAction;
    match e
    case Force(p) => ForceBoundsWait(s, p);
    case BackendForcing(p) =>
      ForceBoundsWait(s, p);
      ForceKeepsInv(s, p);
      TimersBoundWait(ForcePhase(s, p), false, Fixed, 0);
    case Action(a, adaptive) => ActionBoundsWait(s, a, adaptive);
    case Advance(dt, switched, at, ev) => StepBoundsWait(s, dt, switched, at, ev);
    case Green(n) => TimersBoundWait(s, false, Fixed, n);
    case Mode(m) => TimersBoundWait(s, false, m, 0);
    case ManualSwitch(b) => TimersBoundWait(s, b, Fixed, 0);
    case _ => TimersBoundWait(s, false, Fixed, 0);
  }

  lemma ActionBoundsWait(s: Sys, a: int, adaptive: bool)
    requires Inv(s) && WaitBounded(s)
    ensures WaitBounded(ApplyAction(s, a, adaptive))
  {
    hide ForcePhase, ManualHold, SetGreenDuration, WaitBounded, NoDirectSwap;
    var next := NextPhaseName(s);
    ForceBoundsWait(s, next);
    ForceKeepsInv(s, next);
    TimersBoundWait(ForcePhase(s, next), false, Fixed, 0);
    TimersBoundWait(s, false, Fixed, Remaining(s) + 5);
    TimersBoundWait(s, false, Fixed, Remaining(s) + 10);
    TimersKeepLights(s, false, Fixed, Remaining(s) + 5);
    TimersKeepLights(s, false, Fixed, Remaining(s) + 10);
    TimersBoundWait(SetGreenDuration(s, Remaining(s) + 5), false, Fixed, 0);
    TimersBoundWait(SetGreenDuration(s, Remaining(s) + 10), false, Fixed, 0);
  }

  lemma {:induction false} RunBoundsWait(s: Sys, es: seq<Event>)
    requires Inv(s) && WaitBounded(s) && Legal(s, es)
    ensures Inv(Run(s, es)) && WaitBounded(Run(s, es))
    decreases |es|
  {
    hide Inv, WaitBounded, Apply, Enabled;
    if es != [] {
      ApplyKeepsInv(s, es[0]);
      ApplyBoundsWait(s, es[0]);
      RunBoundsWait(Apply(s, es[0]), es[1..]);
    }
  }

  /** Simulation steps that all see the emergency vehicle on `d` first. */
  predicate Sees(es: seq<Event>, d: Direction) {
    forall i :: 0 <= i < |es| ==> es[i].Advance? && es[i].ev == Some(d)
  }

  /** Seen for the first time at `t0`, `d` has its green, or waits for it since no more than a yellow. */
  ghost predicate Serves(s: Sys, d: Direction, t0: real) {
    && Inv(s) && s.preemptEnabled && !s.manual && GivesWay(s, d)
    && (!ColorOf(s.phase, d).Green? ==>
          && s.nextSwitch - t0 <= (AtLeast0(YellowDuration(s) - 1) + 1) as real
          && s.now - t0 <= AtLeast0(YellowDuration(s) - 1) as real)
  }

  /** From then on every step keeps the green, or goes on waiting, or reaches it. */
  lemma ServeStep(s: Sys, dt: real, switched: bool, at: real, d: Direction, t0: real)
    requires Serves(s, d, t0) && MaySimulate(s, dt, switched, at)
    ensures Serves(Step(s, dt, switched, at, Some(d)), d, t0)
    ensures ColorOf(s.phase, d).Green? ==> ColorOf(Step(s, dt, switched, at, Some(d)).phase, d).Green?
  {
    StepKeepsInv(s, dt, switched, at, Some(d));
    PreemptionGivesWay(s, dt, switched, at, d);
    var u := Simulate(s, dt, switched, at);
    ForceLights(u.(preempting := true), GreenPhaseFor(d));
    hide NoDirectSwap, ForcePhase, ManualHold;
  }

  /** From any reachable state that preempts and is not in manual mode: after every step that still sees the
      vehicle, its side has green or is given way to; once green it stays green; and it is green after
      every step that ends more than max(Y-1, 0) seconds after the first that saw it, where Y is the yellow. */
  lemma EmergencyGetsGreen(start: Sys, before: seq<Event>, es: seq<Event>, d: Direction)
    requires Initial(start) && Legal(start, before)
    requires var s := Run(start, before); s.preemptEnabled && !s.manual && Legal(s, es) && es != [] && Sees(es, d)
    ensures var s := Run(start, before); var first, last := Apply(s, es[0]), Run(s, es);
            && GivesWay(last, d)
            && (ColorOf(first.phase, d).Green? ==> ColorOf(last.phase, d).Green?)
            && (last.now - first.now > AtLeast0(YellowDuration(s) - 1) as real ==> ColorOf(last.phase, d).Green?)
  {
    RunBoundsWait(start, before);
    var s := Run(start, before);
    FirstSight(s, es[0], d);
    ServeRun(Apply(s, es[0]), es[1..], d, Apply(s, es[0]).now);
    hide Inv, GivesWay, YellowDuration, Initial;
  }

  lemma FirstSight(s: Sys, e: Event, d: Direction)
    requires Inv(s) && WaitBounded(s) && s.preemptEnabled && !s.manual && Enabled(s, e) && e.Advance? && e.ev == Some(d)
    ensures Serves(Apply(s, e), d, Apply(s, e).now) && YellowDuration(Apply(s, e)) == YellowDuration(s)
  {
    StepKeepsInv(s, e.dt, e.switched, e.at, e.ev);
    StepBoundsWait(s, e.dt, e.switched, e.at, e.ev);
    PreemptionGivesWay(s, e.dt, e.switched, e.at, d);
    StepKeepsModes(s, e.dt, e.switched, e.at, e.ev);
    hide Step, Inv, Trunc;
  }

  /** A step changes neither the program nor the modes. */
  lemma StepKeepsModes(s: Sys, dt: real, switched: bool, at: real, ev: Option<Direction>)
    ensures SameModes(Step(s, dt, switched, at, ev), s)
  {
    hide ManualHold, ForcePhase, TickPending;
    var u := Simulate(s, dt, switched, at);
    TickKeepsModes(u);
    var t := TickPending(u);
    HoldKeepsClock(t);
    if ev.Some? {
      ForceKeepsModes(t.(preempting := true), GreenPhaseFor(ev.value));
    }
  }

  predicate SameModes(s: Sys, t: Sys) {
    s.prog == t.prog && s.manual == t.manual && s.mode == t.mode && s.preemptEnabled == t.preemptEnabled
  }

  lemma ForceKeepsModes(s: Sys, p: Phase)
    ensures SameModes(ForcePhase(s, p), s)
  {
    hide ManualHold, Trunc, Program.Of;
    HoldKeepsClock(s.(pending := None));
    HoldKeepsClock(SetPhase(s, p));
    HoldKeepsClock(SetPhase(s, p).(pending := None));
  }

  lemma {:induction false} ServeRun(s: Sys, es: seq<Event>, d: Direction, t0: real)
    requires Serves(s, d, t0) && Legal(s, es) && Sees(es, d)
    ensures Serves(Run(s, es), d, t0) && YellowDuration(Run(s, es)) == YellowDuration(s)
    ensures ColorOf(s.phase, d).Green? ==> ColorOf(Run(s, es).phase, d).Green?
    decreases |es|
  {
    hide Serves, Step, Trunc;
    if es != [] {
      var e := es[0];
      ServeStep(s, e.dt, e.switched, e.at, d, t0);
      StepKeepsModes(s, e.dt, e.switched, e.at, e.ev);
      ServeRun(Apply(s, e), es[1..], d, t0);
    }
  }

  // ----- the tracked command -----

  datatype Tracked = InFlight | Expired | AppliedAt(simT: real)

  /** The tracker's tick after each step: it still sees the time before the step, checks the
      deadline first, and completes once nothing is scheduled and the target shows. */
  function Track(s: Sys, es: seq<Event>, deadline: real, target: Phase): Tracked
    decreases |es|
  {
    if es == [] then InFlight
    else
      var t := Apply(s, es[0]);
      match FateOf(deadline, Sight(t.pending.Some?, t.phase == target), s.now)
      case TimedOut => Expired
      case Done => AppliedAt(s.now)
      case Wait => Track(t, es[1..], deadline, target)
  }

  lemma {:induction false} TrackRun(s: Sys, es: seq<Event>, d: real, target: Phase, t0: real, y: int)
    requires Waits(s, target, t0, y) && Legal(s, es) && QuietSteps(es, d) && 0 <= y <= 31
    ensures Track(s, es, t0 + TRANSITION_TIMEOUT, target) != Expired
    ensures Track(s, es, t0 + TRANSITION_TIMEOUT, target).AppliedAt? <==> ReachedAt(s, es).Some?
    decreases |es|
  {
    if es != [] {
      var e := es[0];
      WaitStep(s, target, t0, y, e.dt, e.switched, e.at);
      var t := Apply(s, e);
      if t.pending.Some? {
        assert QuietSteps(es[1..], d);
        TrackRun(t, es[1..], d, target, t0, y);
      }
    }
  }

  /** The command ends as applied, and never as timed out, as long as yellow is at most 31 s. */
  lemma TrackedForceIsApplied(s: Sys, target: Phase, es: seq<Event>, d: real)
    requires s.phase.IsGreen() && target.IsGreen() && s.phase != target && s.prog.nsYellow >= 0.0
    requires Legal(ForcePhase(s, target), es) && QuietSteps(es, d)
    requires YellowDuration(s) <= 31
    ensures var t, deadline := ForcePhase(s, target), s.now + TRANSITION_TIMEOUT;
            && Track(t, es, deadline, target) != Expired
            && (Track(t, es, deadline, target).AppliedAt? <==> ReachedAt(t, es).Some?)
  {
    hide ForcePhase, YellowDuration, Waits, Track, ReachedAt, Legal;
    CrossForceWaits(s, target);
    TrackRun(ForcePhase(s, target), es, d, target, s.now, YellowDuration(s));
  }

  /** With a longer yellow some run of steps does time out, so 31 s is exact. */
  lemma LongYellowTimesOut(s: Sys, target: Phase)
    requires s.phase.IsGreen() && target.IsGreen() && s.phase != target && s.prog.nsYellow >= 0.0
    requires YellowDuration(s) >= 32
    ensures var es := [Advance(30.5, false, 0.0, None), Advance(0.5, false, 0.0, None)];
            && Legal(ForcePhase(s, target), es)
            && Track(ForcePhase(s, target), es, s.now + TRANSITION_TIMEOUT, target) == Expired
  {
    hide ForcePhase, Remaining, YellowDuration, Step;
    var t, y := ForcePhase(s, target), YellowDuration(s);
    CrossForceWaits(s, target);
    var e0, e1 := Advance(30.5, false, 0.0, None), Advance(0.5, false, 0.0, None);
    WaitStep(t, target, s.now, y, 30.5, false, 0.0);
    var u := Apply(t, e0);
    assert u.pending.Some?;
    assert [e0, e1][1..] == [e1] && [e1][1..] == [];
    assert Legal(u, [e1]);
    assert Track(u, [e1], s.now + TRANSITION_TIMEOUT, target) == Expired;
  }

  lemma {:induction false} TrackLate(s: Sys, es: seq<Event>, d: real, target: Phase, t0: real, y: int)
    requires Waits(s, target, t0, y) && Legal(s, es) && QuietSteps(es, d) && y >= 0 && y as real >= 31.0 + d
    ensures Track(s, es, t0 + TRANSITION_TIMEOUT, target) ==
            if es != [] && Run(s, es[..|es| - 1]).now - t0 > TRANSITION_TIMEOUT then Expired else InFlight
    decreases |es|
  {
    hide Step, Waits;
    if es != [] {
      var e := es[0];
      WaitStep(s, target, t0, y, e.dt, e.switched, e.at);
      var t := Apply(s, e);
      var before := es[..|es| - 1];
      if |es| > 1 {
        assert before[0] == e && before[1..] == es[1..][..|es| - 2];
        assert Run(s, before) == Run(t, before[1..]);
        assert QuietSteps(es[1..], d);
      }
      if s.now - t0 > TRANSITION_TIMEOUT {
        StepsTakeTime(s, es, d, |es| - 1);
      } else {
        assert t.pending.Some?;
        TrackLate(t, es[1..], d, target, t0, y);
      }
    }
  }

  /** With steps of at most `d` and a yellow of 31 + d seconds or more, the command never ends as applied:
      it times out in every run, at the first step that begins after the deadline. */
  lemma LongYellowAlwaysTimesOut(s: Sys, target: Phase, es: seq<Event>, d: real)
    requires s.phase.IsGreen() && target.IsGreen() && s.phase != target && s.prog.nsYellow >= 0.0
    requires Legal(ForcePhase(s, target), es) && QuietSteps(es, d)
    requires YellowDuration(s) as real >= 31.0 + d
    ensures var t, deadline := ForcePhase(s, target), s.now + TRANSITION_TIMEOUT;
            Track(t, es, deadline, target) == if es != [] && Run(t, es[..|es| - 1]).now > deadline then Expired else InFlight
  {
    hide ForcePhase, YellowDuration, Waits, Track, Run, Legal;
    CrossForceWaits(s, target);
    TrackLate(ForcePhase(s, target), es, d, target, s.now, YellowDuration(s));
  }

  /** With a shorter yellow some run of such steps ends as applied, so 31 + d is exact. */
  lemma NeverAppliedIff(s: Sys, target: Phase, d: real)
    requires s.phase.IsGreen() && target.IsGreen() && s.phase != target && s.prog.nsYellow >= 0.0 && d > 0.0
    ensures (forall es :: Legal(ForcePhase(s, target), es) && QuietSteps(es, d) ==>
               !Track(ForcePhase(s, target), es, s.now + TRANSITION_TIMEOUT, target).AppliedAt?)
            <==> YellowDuration(s) as real >= 31.0 + d
  {
    hide Track, Legal, ForcePhase, YellowDuration;
    var t, y := ForcePhase(s, target), YellowDuration(s);
    CrossForceWaits(s, target);
    if y as real >= 31.0 + d {
      forall es | Legal(t, es) && QuietSteps(es, d) ensures !Track(t, es, s.now + TRANSITION_TIMEOUT, target).AppliedAt? {
        LongYellowAlwaysTimesOut(s, target, es, d);
      }
    } else {
      var n := EnoughSteps(30.0, d);
      var es := AppliedInTime(t, d, target, s.now, y, n);
    }
  }

  lemma EnoughSteps(x: real, d: real) returns (n: nat)
    requires x >= 0.0 && d > 0.0
    ensures n as real * d >= x
  {
    var q := x / d;
    assert q * d == x && q >= 0.0;
    n := q.Floor + 1;
    var r := n as real - q;
    Product(r, d);
    assert n as real * d == (q + r) * d == q * d + r * d;
  }

  lemma Product(a: real, b: real)
    requires a >= 0.0 && b >= 0.0
    ensures a * b >= 0.0
  {
  }

  /** Waiting steps up to the deadline, then one that reaches the end of yellow. */
  lemma {:induction false} AppliedInTime(s: Sys, d: real, target: Phase, t0: real, y: int, n: nat) returns (es: seq<Event>)
    requires Waits(s, target, t0, y) && 0 <= y && y as real < 31.0 + d && d > 0.0
    requires s.now - t0 <= 30.0 && n as real * d >= 30.0 - (s.now - t0)
    ensures Legal(s, es) && QuietSteps(es, d) && Track(s, es, t0 + TRANSITION_TIMEOUT, target).AppliedAt?
    decreases n
  {
    hide Step, HoldIfManual;
    var left := 30.0 - (s.now - t0);
    var last := s.now - t0 + d > (y - 1) as real;
    var e := Advance(if last || d < left then d else left, y == 0, s.now, None);
    WaitStep(s, target, t0, y, e.dt, e.switched, e.at);
    var t := Apply(s, e);
    if last {
      es := [e];
      assert es[1..] == [];
    } else {
      assert n > 0 && n as real * d == (n - 1) as real * d + d;
      var rest := AppliedInTime(t, d, target, t0, y, n - 1);
      es := [e] + rest;
      assert es[1..] == rest;
    }
  }

  lemma {:induction false} StepsTakeTime(s: Sys, es: seq<Event>, d: real, n: nat)
    requires Legal(s, es) && QuietSteps(es, d) && n <= |es|
    ensures Run(s, es[..n]).now >= s.now
    decreases n
  {
    if n > 0 {
      var e := es[0];
      StepKeepsTime(s, e.dt, e.switched, e.at);
      assert QuietSteps(es[1..], d) && es[..n][1..] == es[1..][..n - 1];
      StepsTakeTime(Apply(s, e), es[1..], d, n - 1);
    }
  }

  lemma StepKeepsTime(s: Sys, dt: real, switched: bool, at: real)
    ensures Step(s, dt, switched, at, None).now == s.now + dt
  {
    hide ManualHold, Remaining;
    var u := Simulate(s, dt, switched, at);
    HoldKeepsClock(u.(pending := None));
    HoldKeepsClock(TickPending(u));
    if u.pending.Some? {
      HoldKeepsClock(SetPhase(u, u.pending.value).(pending := None));
    }
  }

  // ----- how long phases show, and what the modes and actions do -----

  /** The time SUMO has left before it may advance. */
  function TimeLeft(s: Sys): real {
    s.nextSwitch - s.now
  }

  /** What force_phase does to the clock: a phase it shows gets its program time; a yellow on the way to
      another axis gets the whole seconds of the yellow; a phase that is shown already keeps its time, or
      in manual mode is held for at least a minute. */
  lemma ForceTimes(s: Sys, target: Phase)
    ensures var t := ForcePhase(s, target);
            && t.now == s.now
            && (s.phase == target ==> TimeLeft(t) == TimeLeft(s) || (s.manual && Remaining(s) < 60 && TimeLeft(t) == 3600.0))
            && (s.phase == target && s.manual && s.phase.IsGreen() ==> TimeLeft(t) >= 60.0)
            && (s.phase != target && (s.phase.SameAxis(target) || target.IsYellow()) ==> TimeLeft(t) == s.prog.Of(target))
            && (!s.phase.SameAxis(target) && target.IsGreen() ==> TimeLeft(t) == YellowDuration(s) as real)
  {
    ForceTimesHeld(s);
    hide Trunc, ManualHold;
  }

  lemma ForceTimesHeld(s: Sys)
    ensures var t := ManualHold(s.(pending := None));
            && t.now == s.now && (TimeLeft(t) == TimeLeft(s) || (s.manual && Remaining(s) < 60 && TimeLeft(t) == 3600.0))
            && (s.manual ==> TimeLeft(t) >= 60.0)
  {
  }

  /** Until then a light that is left alone keeps its phase: over every run of steps without an emergency
      vehicle, with nothing scheduled and no officer. */
  lemma {:induction false} LeftAloneKeepsPhase(s: Sys, es: seq<Event>)
    requires s.pending.None? && !s.manual && Legal(s, es) && forall i :: 0 <= i < |es| ==> es[i].Advance? && es[i].ev.None?
    ensures Run(s, es).now < s.nextSwitch ==> Run(s, es).phase == s.phase && Run(s, es).shown == s.shown
    ensures Run(s, es).now >= s.now && s.shown <= Run(s, es).shown
    decreases |es|
  {
    if es != [] {
      var e, t := es[0], Apply(s, es[0]);
      assert !e.switched ==> t.nextSwitch == s.nextSwitch && t.phase == s.phase && t.shown == s.shown;
      assert e.switched ==> t.now >= s.nextSwitch;
      LeftAloneKeepsPhase(t, es[1..]);
    }
  }

  /** A forced phase of the same axis, or a forced yellow, shows for its program time in every such run. */
  lemma ForcedShowsItsTime(s: Sys, target: Phase, es: seq<Event>)
    requires !s.manual && s.phase != target && (s.phase.SameAxis(target) || target.IsYellow())
    requires Legal(ForcePhase(s, target), es) && forall i :: 0 <= i < |es| ==> es[i].Advance? && es[i].ev.None?
    ensures var u := Run(ForcePhase(s, target), es); u.now - s.now < s.prog.Of(target) ==> u.phase == target
  {
    ForceTimes(s, target);
    ForceLights(s, target);
    ForceKeepsModes(s, target);
    hide ForcePhase, Run, Legal;
    LeftAloneKeepsPhase(ForcePhase(s, target), es);
  }

  /** When SUMO advances, the next phase begins at that instant and has its program time. */
  lemma AdvanceTimes(s: Sys, dt: real, at: real)
    ensures var t := Simulate(s, dt, true, at);
            t.now == s.now + dt && t.phase == s.phase.Next() && t.nextSwitch - at == s.prog.Of(t.phase)
    ensures Simulate(s, dt, false, at).now == s.now + dt && SameLights(s, Simulate(s, dt, false, at))
  {
  }

  /** The green time set is allowed, and lies between what was asked for and any other allowed one. */
  lemma ClampIsNearest(n: int, m: int)
    ensures 10 <= Clamp(n) <= 120
    ensures 10 <= m <= 120 ==> n <= Clamp(n) <= m || m <= Clamp(n) <= n
  {
  }

  /** It holds at once for a green that is showing, and for both axes from then on; yellows keep theirs. */
  lemma GreenTimeHolds(s: Sys, n: int)
    ensures var t := SetGreenDuration(s, n);
            && SameLights(s, t) && t.now == s.now && t.custom == Clamp(n)
            && (s.phase.IsGreen() ==> TimeLeft(t) == Clamp(n) as real)
            && (s.phase.IsYellow() ==> TimeLeft(t) == TimeLeft(s))
            && (forall p: Phase :: t.prog.Of(p) == if p.IsGreen() then Clamp(n) as real else s.prog.Of(p))
  {
  }

  /** Leaving manual mode keeps the lights and gives the phase the whole seconds of its time, the green time
      that was set if one was, but at least a second. */
  lemma LeavingManual(s: Sys)
    ensures var t := SetManualMode(s, false);
            && SameLights(s, t) && !t.manual && TimeLeft(t) >= 1.0
            && (s.phase.IsYellow() && s.prog.nsYellow >= 1.0 ==> s.prog.nsYellow - 1.0 < TimeLeft(t) <= s.prog.nsYellow)
            && (s.phase.IsGreen() && s.custom >= 1 ==> TimeLeft(t) == s.custom as real)
            && (s.phase.IsGreen() && s.custom == 0 && s.prog.nsGreen >= 1.0 ==> s.prog.nsGreen - 1.0 < TimeLeft(t) <= s.prog.nsGreen)
  {
  }

  /** The modes exclude each other: manual is exactly the officer's mode, preemption exactly its own. */
  lemma ModesExclude(s: Sys, m: ControlMode)
    ensures var t := SetControlMode(s, m);
            && t.mode == m && SameLights(s, t)
            && (t.manual <==> m.Manual?) && (t.preemptEnabled <==> m.PreemptionEnabled?) && (!m.PreemptionEnabled? ==> !t.preempting)
    ensures EnterAdaptive(s).manual && !EnterAdaptive(s).preemptEnabled && !EnterAdaptive(s).preempting
    ensures !ExitAdaptive(s).manual && !ExitAdaptive(s).preemptEnabled
  {
    hide Trunc;
    TimersKeepLights(s, m.Manual?, m, 0);
  }

  /** The preempting flag tells whether preemption is on and an emergency vehicle was seen. */
  lemma PreemptingIff(s: Sys, ev: Option<Direction>)
    ensures UpdatePreemption(s, ev).preempting <==> s.preemptEnabled && ev.Some?
  {
    hide Trunc, Remaining;
  }

  /** What each agent action does outside the adaptive mode: KEEP, and every action that is not allowed,
      changes nothing; SWITCH forces the next phase, or the one already scheduled; the two extensions, on a
      green without a scheduled target, set the time left to 5 or 10 seconds more than the whole seconds
      left, within the allowed green times.  The adaptive mode holds the light after the same change. */
  lemma ActionMeans(s: Sys, action: int)
    ensures var t := ApplyAction(s, action, false);
            && (action == SWITCH ==> t == ForcePhase(s, if s.pending.Some? then s.pending.value else s.phase.Next()))
            && (action != SWITCH ==> SameLights(s, t) && t.now == s.now)
            && (action == EXTEND_5 && s.phase.IsGreen() && s.pending.None? ==> TimeLeft(t) == Clamp(Remaining(s) + 5) as real)
            && (action == EXTEND_10 && s.phase.IsGreen() && s.pending.None? ==> TimeLeft(t) == Clamp(Remaining(s) + 10) as real)
            && (action !in {SWITCH, EXTEND_5, EXTEND_10} || (action != SWITCH && (s.phase.IsYellow() || s.pending.Some?)) ==> t == s)
    ensures ApplyAction(s, action, true) == ManualHold(ApplyAction(s, action, false))
  {
    hide ForcePhase, Clamp, Remaining, ManualHold;
  }

  // ----- manual mode -----

  /** Held by an officer: no target scheduled, and at least a minute before SUMO would advance. */
  ghost predicate ManualSettled(s: Sys) {
    s.manual && PendingOk(s) && (s.pending.None? ==> s.nextSwitch - s.now >= HOLD_REFRESH_BELOW as real)
  }

  lemma ManualHoldSettles(s: Sys)
    requires s.manual && PendingOk(s)
    ensures ManualSettled(ManualHold(s))
  {
  }

  /** In manual mode a scheduled target is held once it shows, and so is a phase that was forced. */
  lemma ManualTargetSettles(s: Sys, target: Phase)
    requires Inv(s) && s.manual
    ensures s.pending.Some? ==> ManualSettled(TickPending(s))
    ensures s.mode.Manual? ==> ManualSettled(BackendForce(s, target))
  {
    hide ForcePhase, NoDirectSwap, ManualSettled, ManualHold;
    ForceKeepsInv(s, target);
    ForceKeepsModes(s, target);
    ManualHoldSettles(ForcePhase(s, target));
    if s.pending.Some? {
      PendingTickSettles(s);
    }
  }

  lemma PendingTickSettles(s: Sys)
    requires s.manual && PendingOk(s) && s.pending.Some?
    ensures ManualSettled(TickPending(s))
  {
    hide ManualHold;
    ManualHoldSettles(s.(pending := None));
    ManualHoldSettles(SetPhase(s, s.pending.value).(pending := None));
  }

  /** Entering manual mode settles, from any reachable state. */
  lemma EnteringManualSettles(s: Sys)
    requires Inv(s)
    ensures ManualSettled(SetManualMode(s, true)) && ManualSettled(SetControlMode(s, Manual))
  {
    ManualHoldSettles(s.(manual := true, preemptEnabled := false, preempting := false));
  }

  lemma ManualStep(s: Sys, dt: real, switched: bool, at: real, ev: Option<Direction>)
    requires ManualSettled(s) && MaySimulate(s, dt, switched, at) && dt < HOLD_REFRESH_BELOW as real
    ensures var t := Step(s, dt, switched, at, ev);
            && ManualSettled(t) && (t.pending.Some? ==> t.pending == s.pending)
            && (s.pending.None? ==> t.pending.None? && t.shown == s.shown)
            && (s.pending.Some? ==> if t.pending.Some? then t.shown == s.shown
                                    else t.shown == s.shown + [s.pending.value])
  {
    hide Remaining;
    var u := Simulate(s, dt, switched, at);
    if s.pending.Some? {
      if switched {
        assert u.phase == s.pending.value;
        ManualHoldSettles(u.(pending := None));
      } else if !(Remaining(u) > 0) {
        ManualHoldSettles(SetPhase(u, s.pending.value).(pending := None));
      }
    }
    ManualHoldSettles(TickPending(u));
  }

  /** Without commands, from here on: the phase changes at most once, to a target already scheduled. */
  ghost predicate HeldStill(s: Sys, t: Sys) {
    if s.pending.None? then t.shown == s.shown else t.shown == s.shown || t.shown == s.shown + [s.pending.value]
  }

  /** Simulation steps only, each under a minute. */
  predicate ShortSteps(es: seq<Event>) {
    forall i :: 0 <= i < |es| ==> es[i].Advance? && es[i].dt < HOLD_REFRESH_BELOW as real
  }

  lemma {:induction false} SettledHoldsStill(s: Sys, es: seq<Event>)
    requires ManualSettled(s) && Legal(s, es) && ShortSteps(es)
    ensures ManualSettled(Run(s, es)) && HeldStill(s, Run(s, es))
    decreases |es|
  {
    hide Step, ManualSettled;
    if es != [] {
      var e := es[0];
      var t := Apply(s, e);
      ManualStep(s, e.dt, e.switched, e.at, e.ev);
      SettledHoldsStill(t, es[1..]);
      assert Run(s, es) == Run(t, es[1..]);
    }
  }

  /** The first step of a manual state is harmless when the switch is further away than the step. */
  lemma FirstManualStep(s: Sys, dt: real, switched: bool, at: real, ev: Option<Direction>)
    requires s.manual && PendingOk(s) && MaySimulate(s, dt, switched, at) && s.pending.None?
    requires dt < s.nextSwitch - s.now
    ensures var t := Step(s, dt, switched, at, ev); ManualSettled(t) && t.pending.None? && t.shown == s.shown
  {
    ManualHoldSettles(Simulate(s, dt, switched, at));
  }

  /** Every run of short steps whose first one takes `d` holds still. */
  ghost predicate AlwaysHeldStill(s: Sys, d: real) {
    forall es: seq<Event> :: Legal(s, es) && ShortSteps(es) && es != [] && es[0].dt == d ==> HeldStill(s, Run(s, es))
  }

  /** In every reachable manual state, with steps under a minute and no commands, the phase changes at
      most once, to the target already scheduled, exactly when a target is scheduled or the first step
      is shorter than the time SUMO has left before it would advance. */
  lemma ManualHoldsStill(s: Sys, d: real)
    requires Inv(s) && s.manual && 0.0 < d < HOLD_REFRESH_BELOW as real
    ensures AlwaysHeldStill(s, d) <==> s.pending.Some? || d < s.nextSwitch - s.now
  {
    if s.pending.Some? || d < s.nextSwitch - s.now {
      forall es: seq<Event> | Legal(s, es) && ShortSteps(es) && es != [] && es[0].dt == d ensures HeldStill(s, Run(s, es)) {
        FirstThenSettled(s, es);
      }
    } else {
      var at := if s.nextSwitch > s.now then s.nextSwitch else s.now;
      var es := [Advance(d, true, at, None)];
      assert es[1..] == [] && Run(s, es) == Run(Step(s, d, true, at, None), []);
      assert Legal(s, es) && ShortSteps(es);
      UnheldStep(s, d, at);
    }
  }

  lemma FirstThenSettled(s: Sys, es: seq<Event>)
    requires Inv(s) && s.manual && Legal(s, es) && ShortSteps(es) && es != []
    requires s.pending.Some? || es[0].dt < s.nextSwitch - s.now
    ensures HeldStill(s, Run(s, es))
  {
    var e := es[0];
    if s.pending.Some? {
      SettledHoldsStill(s, es);
    } else {
      FirstManualStep(s, e.dt, e.switched, e.at, e.ev);
      hide Step, PendingOk;
      assert ShortSteps(es[1..]);
      SettledHoldsStill(Apply(s, e), es[1..]);
    }
  }

  lemma UnheldStep(s: Sys, d: real, at: real)
    requires s.manual && s.pending.None?
    ensures Step(s, d, true, at, None).shown == s.shown + [s.phase.Next()]
  {
    TimersKeepLights(Simulate(s, d, true, at), false, Fixed, 0);
    hide ManualHold;
  }

  /** Simulation steps only, none longer than `d`. */
  predicate StepsUpTo(es: seq<Event>, d: real) {
    forall i :: 0 <= i < |es| ==> es[i].Advance? && es[i].dt <= d
  }

  ghost predicate AlwaysHeldUpTo(s: Sys, d: real) {
    forall es: seq<Event> :: Legal(s, es) && StepsUpTo(es, d) ==> HeldStill(s, Run(s, es))
  }

  /** The minute is exact: a settled hold survives all runs of steps of at most `d` only for a `d` below it. */
  lemma MinuteIsExact(s: Sys, d: real)
    requires ManualSettled(s) && s.pending.None?
    ensures AlwaysHeldUpTo(s, d) <==> d < HOLD_REFRESH_BELOW as real
  {
    if d < HOLD_REFRESH_BELOW as real {
      forall es: seq<Event> | Legal(s, es) && StepsUpTo(es, d) ensures HeldStill(s, Run(s, es)) {
        SettledHoldsStill(s, es);
      }
    } else {
      var es := LongStepsEscape(s, d);
    }
  }

  /** Quiet steps use the hold up to its last minute, where it is not yet refreshed; one long step leaves it. */
  lemma {:induction false} LongStepsEscape(s: Sys, d: real) returns (es: seq<Event>)
    requires s.manual && s.pending.None? && s.nextSwitch - s.now >= 60.0 && d >= 60.0
    ensures Legal(s, es) && StepsUpTo(es, d) && |Run(s, es).shown| > |s.shown|
    decreases if s.nextSwitch - s.now <= d then 0 else (s.nextSwitch - s.now).Floor
  {
    var left := s.nextSwitch - s.now;
    if left <= d {
      es := [Advance(left, true, s.nextSwitch, None)];
      UnheldStep(s, left, s.nextSwitch);
      assert es[1..] == [] && Run(s, es) == Run(Apply(s, es[0]), []);
    } else {
      var e := Advance(if left >= 90.0 then 30.0 else left - 60.0, false, 0.0, None);
      QuietStep(s, e.dt);
      var rest := LongStepsEscape(Apply(s, e), d);
      es := [e] + rest;
      assert es[1..] == rest;
    }
  }

  lemma QuietStep(s: Sys, dt: real)
    requires s.manual && s.pending.None? && dt > 0.0 && s.nextSwitch - (s.now + dt) >= 60.0
    ensures var t := Step(s, dt, false, 0.0, None);
            MaySimulate(s, dt, false, 0.0) && t.manual && t.pending.None? && t.shown == s.shown
            && t.nextSwitch == s.nextSwitch && t.now == s.now + dt
  {
  }

  lemma GreenInManual(s: Sys)
    requires Initial(s) && s.phase == NsGreen
    ensures var t := Apply(Apply(s, Mode(Manual)), Event.Green(10));
            t.manual && t.pending.None? && t.phase == NsGreen && t.shown == [NsGreen] && t.now == s.now && t.nextSwitch == s.now + 10.0
  {
    TimersKeepLights(s, true, Manual, 0);
    hide ManualHold;
    var u := SetControlMode(s, Manual);
    HoldKeepsClock(s.(mode := Manual, manual := true, preemptEnabled := false, preempting := false));
    TimersKeepLights(u, false, Fixed, 10);
  }

  lemma HoldKeepsClock(s: Sys)
    ensures ManualHold(s).now == s.now && ManualHold(s).manual == s.manual && ManualHold(s).mode == s.mode
    ensures ManualHold(s).prog == s.prog && ManualHold(s).preemptEnabled == s.preemptEnabled
  {
  }

  /** The condition is needed: a green time set in manual mode is not held until the next step, and a
      step of 15 s leaves the green although nobody asked for it. */
  lemma GreenChangeIsNotHeld(s: Sys)
    requires Initial(s) && s.phase == NsGreen
    ensures var es := [Mode(Manual), Event.Green(10), Advance(15.0, true, s.now + 10.0, None)];
            Legal(s, es) && Run(s, es[..2]).manual && Run(s, es).shown == [NsGreen, NsYellow]
  {
    var e0, e1, e2 := Mode(Manual), Event.Green(10), Advance(15.0, true, s.now + 10.0, None);
    var es := [e0, e1, e2];
    assert es[1..] == [e1, e2] && [e1, e2][1..] == [e2] && [e2][1..] == [];
    assert es[..2] == [e0, e1] && [e0, e1][1..] == [e1] && [e1][1..] == [];
    GreenInManual(s);
    var t := Apply(Apply(s, e0), e1);
    UnheldStep(t, 15.0, s.now + 10.0);
    hide SetControlMode, SetGreenDuration, Step;
    assert Run(s, es) == Run(Apply(s, e0), [e1, e2]) == Run(t, [e2]) == Run(Apply(t, e2), []);
    assert Run(s, [e0, e1]) == Run(Apply(s, e0), [e1]) == Run(t, []);
    assert Legal(t, [e2]);
    assert [e1, e2][0] == e1 && Enabled(Apply(s, e0), e1);
    assert Legal(Apply(s, e0), [e1, e2]);
  }

  // ----- manual mode through the backend -----

  /** What the backend's handlers and its step do to the light. */
  predicate FromBackend(es: seq<Event>) {
    forall i :: 0 <= i < |es| ==> es[i].BackendForcing? || es[i].Green? || es[i].Mode? || es[i].Advance?
  }

  /** Ten seconds are left in every manual state without a scheduled target. */
  ghost predicate Margin(s: Sys) {
    Inv(s) && (s.manual ==> s.mode.Manual? && (s.pending.None? ==> s.nextSwitch - s.now >= 10.0))
  }

  lemma BackendKeepsMargin(s: Sys, e: Event)
    requires Margin(s) && Enabled(s, e) && FromBackend([e])
    ensures Margin(Apply(s, e))
  {
    hide NoDirectSwap, ForcePhase, Step, ManualHold, TickPending;
    ApplyKeepsInv(s, e);
    assert [e][0] == e;
    match e
    case BackendForcing(p) =>
      ForceKeepsInv(s, p);
      ForceKeepsModes(s, p);
      TimersKeepLights(ForcePhase(s, p), false, Fixed, 0);
      HoldKeepsClock(ForcePhase(s, p));
      if s.manual {
        ManualHoldSettles(ForcePhase(s, p));
      }
    case Mode(m) =>
      HoldKeepsClock(s.(mode := m, manual := true, preemptEnabled := false, preempting := false));
      if m.Manual? {
        EnteringManualSettles(s);
      }
    case Advance(dt, switched, at, ev) =>
      StepMargin(s, dt, switched, at, ev);
    case Green(n) =>
  }

  lemma StepMargin(s: Sys, dt: real, switched: bool, at: real, ev: Option<Direction>)
    requires Margin(s) && MaySimulate(s, dt, switched, at)
    ensures var t := Step(s, dt, switched, at, ev);
            t.manual ==> t.mode.Manual? && (t.pending.None? ==> t.nextSwitch - t.now >= 10.0)
  {
    hide NoDirectSwap, TickPending, ForcePhase;
    AfterSimulate(s, dt, switched, at);
    var t := Simulate(s, dt, switched, at);
    TickKeepsInv(t);
    TickKeepsModes(t);
    var u := TickPending(t);
    hide ManualHold;
    if u.manual {
      ManualHoldSettles(u);
      HoldKeepsClock(u);
    } else if ev.Some? {
      ForceKeepsModes(u.(preempting := true), GreenPhaseFor(ev.value));
    }
  }

  lemma {:induction false} BackendRunMargin(s: Sys, es: seq<Event>)
    requires Margin(s) && Legal(s, es) && FromBackend(es)
    ensures Margin(Run(s, es))
    decreases |es|
  {
    if es != [] {
      assert FromBackend([es[0]]) && FromBackend(es[1..]);
      hide Margin, Apply;
      BackendKeepsMargin(s, es[0]);
      BackendRunMargin(Apply(s, es[0]), es[1..]);
    }
  }

  /** After any run of backend commands and steps, in manual mode, steps under 10 s hold the phase still. */
  lemma BackendManualHoldsStill(s: Sys, es: seq<Event>, quiet: seq<Event>)
    requires Initial(s) && !s.mode.Manual? && Legal(s, es) && FromBackend(es) && Run(s, es).manual
    requires Legal(Run(s, es), quiet) && forall i :: 0 <= i < |quiet| ==> quiet[i].Advance? && quiet[i].dt < 10.0
    ensures HeldStill(Run(s, es), Run(Run(s, es), quiet))
  {
    BackendRunMargin(s, es);
    if quiet != [] {
      FirstThenSettled(Run(s, es), quiet);
    }
  }
}
