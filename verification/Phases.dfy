/** The four-phase signal vocabulary shared by the simulator (`simulator/scenarios.py`) and the
    SUMO runtime (`Visualize/configuration/config.py`). */
module Phases {
  import opened Network

  datatype Phase = NsGreen | NsYellow | EwGreen | EwYellow {
    predicate IsGreen() {
      NsGreen? || EwGreen?
    }

    predicate IsYellow() {
      !IsGreen()
    }

    predicate IsNs() {
      NsGreen? || NsYellow?
    }

    predicate SameAxis(other: Phase) {
      IsNs() == other.IsNs()
    }

    /** The successor in PHASE_SEQUENCE. */
    function Next(): Phase {
      match this
      case NsGreen => NsYellow
      case NsYellow => EwGreen
      case EwGreen => EwYellow
      case EwYellow => NsGreen
    }
  }

  datatype Color = Green | Yellow | Red

  function ColorOf(p: Phase, d: Direction): Color {
    if (d.North? || d.South?) == p.IsNs() then (if p.IsGreen() then Green else Yellow) else Red
  }

  function GreenPhaseFor(d: Direction): Phase {
    if d.North? || d.South? then NsGreen else EwGreen
  }

  // ----- what the colours mean -----

  /** The side across the intersection. */
  function Opposite(d: Direction): Direction {
    match d case North => South case South => North case East => West case West => East
  }

  /** Two approaches whose straight traffic does not cross. */
  predicate SameRoad(d: Direction, e: Direction) {
    e == d || e == Opposite(d)
  }

  /** The colour table of both configurations. */
  const PHASE_COLORS: map<Phase, map<Direction, Color>> := map[
    NsGreen := map[North := Green, South := Green, East := Red, West := Red],
    NsYellow := map[North := Yellow, South := Yellow, East := Red, West := Red],
    EwGreen := map[North := Red, South := Red, East := Green, West := Green],
    EwYellow := map[North := Red, South := Red, East := Yellow, West := Yellow]]

  /** The colour of a phase is that of the table. */
  lemma ColorsAsTabled(p: Phase, d: Direction)
    ensures p in PHASE_COLORS && d in PHASE_COLORS[p] && ColorOf(p, d) == PHASE_COLORS[p][d]
  {
  }

  /** At any time the two approaches of one road show one and the same colour, and those of the other
      road are red, whatever the first show; never is everything red. */
  lemma OneRoadAtATime(p: Phase, d: Direction, e: Direction)
    ensures SameRoad(d, e) ==> ColorOf(p, d) == ColorOf(p, e)
    ensures !SameRoad(d, e) ==> (ColorOf(p, d).Red? <==> !ColorOf(p, e).Red?)
  {
  }

  /** An approach is green in exactly one phase, yellow in the one after it, and red in the other two. */
  lemma GreenYellowRedRed(d: Direction, p: Phase)
    ensures ColorOf(p, d).Green? <==> p == GreenPhaseFor(d)
    ensures ColorOf(p, d).Yellow? <==> p == GreenPhaseFor(d).Next()
    ensures ColorOf(p, d).Red? <==> p == GreenPhaseFor(d).Next().Next() || p == GreenPhaseFor(d).Next().Next().Next()
    ensures GreenPhaseFor(d).Next().Next().Next().Next() == GreenPhaseFor(d)
  {
  }

  /** A phase is called green, or yellow, after the colour it shows to one road, and its axis after that road. */
  lemma PhaseNames(p: Phase, d: Direction)
    ensures p.IsGreen() <==> ColorOf(p, North).Green? || ColorOf(p, East).Green?
    ensures p.IsYellow() <==> ColorOf(p, North).Yellow? || ColorOf(p, East).Yellow?
    ensures p.IsNs() <==> ColorOf(p, East).Red?
    ensures p.SameAxis(GreenPhaseFor(d)) <==> !ColorOf(p, d).Red?
  {
  }
}
