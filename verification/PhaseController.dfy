/** The signal clock of one intersection: `PhaseController` in `simulator/traffic_engine.py`. */
module PhaseClock {
  import opened Options
  import opened Network
  import opened Phases
  import opened RealArithmetic

  /** The controller's fields as a value: phase, time spent in it, and the custom green if set. */
  datatype Clock = Clock(phase: Phase, elapsed: real, custom: Option<int>)

  const YELLOW_SEC := 5.0
  const GREEN_SEC := 45.0

  function GreenTime(custom: Option<int>): real {
    if custom.Some? && custom.value != 0 then custom.value as real else GREEN_SEC
  }

  function Duration(p: Phase, custom: Option<int>): real {
    if p.IsGreen() then GreenTime(custom) else YELLOW_SEC
  }

  function Cycle(custom: Option<int>): real {
    2.0 * GreenTime(custom) + 2.0 * YELLOW_SEC
  }

  /** Time from the start of the cycle to the start of phase `p`. */
  function Prefix(p: Phase, custom: Option<int>): real {
    match p
    case NsGreen => 0.0
    case NsYellow => GreenTime(custom)
    case EwGreen => GreenTime(custom) + YELLOW_SEC
    case EwYellow => 2.0 * GreenTime(custom) + YELLOW_SEC
  }

  /** Where the clock stands in its cycle. */
  function Reading(c: Clock): real {
    Prefix(c.phase, c.custom) + c.elapsed
  }

  /** The clock that stands at `x` seconds into a cycle. */
  function Locate(x: real, custom: Option<int>): Clock {
    var g := GreenTime(custom);
    if x < g then Clock(NsGreen, x, custom)
    else if x < g + YELLOW_SEC then Clock(NsYellow, x - g, custom)
    else if x < 2.0 * g + YELLOW_SEC then Clock(EwGreen, x - g - YELLOW_SEC, custom)
    else Clock(EwYellow, x - 2.0 * g - YELLOW_SEC, custom)
  }

  function Initial(offset: real): Clock {
    Locate(RealMod(offset, Cycle(None)), None)
  }

  function TickClock(c: Clock, dt: real): Clock {
    var e := c.elapsed + dt;
    var d := Duration(c.phase, c.custom);
    if e >= d then c.(phase := c.phase.Next(), elapsed := e - d) else c.(elapsed := e)
  }

  function ForceClock(c: Clock, p: Phase): Clock {
    c.(phase := p, elapsed := 0.0)
  }

  function TickAll(c: Clock, dts: seq<real>): Clock
    decreases |dts|
  {
    if dts == [] then c else TickAll(TickClock(c, dts[0]), dts[1..])
  }

  function Total(dts: seq<real>): real {
    if dts == [] then 0.0 else dts[0] + Total(dts[1..])
  }

  /** Completed cycles over a run: one more each time the last phase gives way to the first. */
  function Laps(c: Clock, dts: seq<real>): nat
    decreases |dts|
  {
    if dts == [] then 0
    else
      var next := TickClock(c, dts[0]);
      (if c.phase.EwYellow? && next.phase.NsGreen? then 1 else 0) + Laps(next, dts[1..])
  }

  ghost predicate InPhase(c: Clock) {
    0.0 <= c.elapsed < Duration(c.phase, c.custom)
  }

  ghost predicate CustomOk(custom: Option<int>) {
    custom.Some? ==> 10 <= custom.value <= 120
  }

  /** Steps that never exceed the shortest phase. */
  ghost predicate SmallSteps(dts: seq<real>) {
    forall i :: 0 <= i < |dts| ==> 0.0 <= dts[i] <= YELLOW_SEC
  }

  /** A tick loses no time, whatever its length: lap time + reading grows by exactly the sum
      of the steps. */
  lemma {:induction false} NoTimeLost(c: Clock, dts: seq<real>)
    ensures Multiple(Laps(c, dts), Cycle(c.custom)) + Reading(TickAll(c, dts)) == Reading(c) + Total(dts)
    ensures TickAll(c, dts).custom == c.custom
    decreases |dts|
  {
    if dts != [] {
      var next := TickClock(c, dts[0]);
      NoTimeLost(next, dts[1..]);
      var wrapped := c.phase.EwYellow? && next.phase.NsGreen?;
      assert Reading(next) == Reading(c) + dts[0] - (if wrapped then Cycle(c.custom) else 0.0);
    }
  }

  lemma {:induction false} StaysInPhase(c: Clock, dts: seq<real>)
    requires InPhase(c) && CustomOk(c.custom) && SmallSteps(dts)
    ensures InPhase(TickAll(c, dts))
    decreases |dts|
  {
    if dts != [] {
      StaysInPhase(TickClock(c, dts[0]), dts[1..]);
    }
  }

  lemma LocateReading(c: Clock)
    requires InPhase(c) && CustomOk(c.custom)
    ensures 0.0 <= Reading(c) < Cycle(c.custom) && Locate(Reading(c), c.custom) == c
  {
  }

  /** The controller refines a modular clock: with small steps, phase and elapsed time are the
      function Locate of (reading at the start + total time) modulo the cycle. */
  lemma RefinesModularClock(c: Clock, dts: seq<real>)
    requires InPhase(c) && CustomOk(c.custom) && SmallSteps(dts)
    ensures TickAll(c, dts) == Locate(RealMod(Reading(c) + Total(dts), Cycle(c.custom)), c.custom)
  {
    NoTimeLost(c, dts);
    StaysInPhase(c, dts);
    var last := TickAll(c, dts);
    LocateReading(last);
    MultipleUnique(Reading(c) + Total(dts), Cycle(c.custom), Laps(c, dts), Reading(last));
  }

  /** From the constructor on: the phase is a function of (offset + total time) mod 100. */
  lemma PhaseFromOffset(offset: real, dts: seq<real>)
    requires SmallSteps(dts)
    ensures TickAll(Initial(offset), dts) == Locate(RealMod(offset + Total(dts), 100.0), None)
  {
    var m := Cycle(None);
    assert m == 100.0;
    ModInRange(offset, m);
    var c := Initial(offset);
    NoTimeLost(c, dts);
    StaysInPhase(c, dts);
    LocateReading(TickAll(c, dts));
    MultipleIsProduct(Laps(c, dts), m);
    var k := (offset / m).Floor + Laps(c, dts);
    assert k as real == (offset / m).Floor as real + Laps(c, dts) as real;
    ModUnique(offset + Total(dts), m, k, Reading(TickAll(c, dts)));
  }

  /** With a longer step the claim fails: one tick of 60 s leaves the clock overdue in yellow. */
  lemma LongStepOverruns()
    ensures TickClock(Initial(0.0), 60.0) == Clock(NsYellow, 15.0, None)
    ensures !InPhase(TickClock(Initial(0.0), 60.0))
  {
    ModUnique(0.0, 100.0, 0, 0.0);
  }

  lemma {:induction false} TotalNonneg(dts: seq<real>)
    requires SmallSteps(dts)
    ensures Total(dts) >= 0.0
  {
    if dts != [] {
      TotalNonneg(dts[1..]);
    }
  }

  /** A phase that has just begun shows for 5 s when it is a yellow, for the green time that was set when
      it is a green, and for 45 s when none was; then the next one begins. */
  lemma PhaseLasts(p: Phase, custom: Option<int>, dts: seq<real>)
    requires CustomOk(custom) && SmallSteps(dts)
    ensures var seconds := if p.IsYellow() then 5.0 else custom.GetOr(45) as real;
            && (Total(dts) < seconds ==> TickAll(Clock(p, 0.0, custom), dts).phase == p)
            && (seconds <= Total(dts) < seconds + 5.0 ==> TickAll(Clock(p, 0.0, custom), dts).phase == p.Next())
  {
    var c := Clock(p, 0.0, custom);
    RefinesModularClock(c, dts);
    TotalNonneg(dts);
    var x, cycle := Reading(c) + Total(dts), Cycle(custom);
    if x < cycle {
      ModUnique(x, cycle, 0, x);
    } else if x < 2.0 * cycle {
      ModUnique(x, cycle, 1, x - cycle);
    }
  }

  class PhaseController {
    var phase: Phase
    var elapsed: real
    var custom: Option<int>

    function View(): Clock
      reads this
    {
      Clock(phase, elapsed, custom)
    }

    /** Spreads the offset over the phases of one base cycle. */
    constructor (offset: real)
      ensures View() == Initial(offset) && InPhase(View())
    {
      var remaining := RealMod(offset, 100.0);
      ModInRange(offset, 100.0);
      ghost var start := remaining;
      assert Cycle(None) == 100.0;
      var p, e := NsGreen, 0.0;
      var i := 0;
      var sequence := [NsGreen, NsYellow, EwGreen, EwYellow];
      var found := false;
      while i < 4 && !found
        invariant 0 <= i <= 4
        invariant !found ==> i < 4 && 0.0 <= remaining && start == Prefix(sequence[i], None) + remaining
        invariant found ==> Clock(p, e, None) == Locate(start, None)
        decreases 4 - i, !found
      {
        var d := Duration(sequence[i], None);
        if remaining < d {
          p, e := sequence[i], remaining;
          found := true;
        } else {
          remaining := remaining - d;
          i := i + 1;
        }
      }
      phase, elapsed, custom := p, e, None;
    }

    method Tick(dt: real)
      modifies this
      ensures View() == TickClock(old(View()), dt)
    {
      elapsed := elapsed + dt;
      if elapsed >= Duration(phase, custom) {
        var overflow := elapsed - Duration(phase, custom);
        phase := phase.Next();
        elapsed := overflow;
      }
    }

    method ForcePhase(p: Phase)
      modifies this
      ensures View() == ForceClock(old(View()), p)
    {
      phase := p;
      elapsed := 0.0;
    }

    method SetGreenDuration(seconds: int)
      modifies this`custom
      ensures custom == Some(if seconds < 10 then 10 else if seconds > 120 then 120 else seconds)
      ensures CustomOk(custom)
    {
      var s := if seconds < 120 then seconds else 120;
      custom := Some(if s > 10 then s else 10);
    }
  }
}
