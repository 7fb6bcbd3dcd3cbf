/** The vehicle record of `simulator/models.py`, with the segment bookkeeping and the signal-line
    motion that `simulator/traffic_engine.py` applies to one vehicle at a time. */
module Vehicles {
  import opened Options
  import opened Network
  import opened Phases
  import opened Routes

  datatype VehicleClass = Motorcycle | Car | Bus | Truck

  datatype VehicleState =
    Transit | Moving | Waiting | Congested | BlockedAtEntry | BlockedAtExit | ExitedNetwork

  datatype Movement = Straight | Left | Right

  datatype Weather = Sunny | LightRain | HeavyRain

  /** The list a vehicle stands in: one edge's list, or one direction and lane of a node. */
  datatype Place =
    | OnEdge(edge: EdgeId)
    | InLane(node: Node, dir: Direction, lane: Movement)

  /** The key of a travelled segment: an edge id or a node id. */
  datatype Context = EdgeCtx(edge: EdgeId) | NodeCtx(node: Node)

  function ContextOf(p: Place): Context {
    match p
    case OnEdge(e) => EdgeCtx(e)
    case InLane(n, _, _) => NodeCtx(n)
  }

  /** Position `x` is before the end of the edge, or before the exit point of the node. */
  predicate Within(p: Place, x: real) {
    match p
    case OnEdge(e) => IsEdge(e.from, e.to) ==> x < Lookup(e.from, e.to).value.length
    case InLane(_, _, _) => x < EXIT_POINT
  }

  const STOP_LINE := 1.0
  const EXIT_POINT := 2.0
  const COMMITMENT := 0.85
  const LANE_M := 100.0
  const CROSSING_M := 30.0
  const GAP_M := 1.5
  const MAX_PCU := 2.5
  const BUS_DWELL_SEC := 4.0
  const BUS_DWELL_KMH := 5.0

  function Pcu(c: VehicleClass): (p: real)
    ensures 0.0 < p <= MAX_PCU
  {
    match c case Motorcycle => 0.24 case Car => 1.0 case Bus => 2.5 case Truck => 2.5
  }

  function LengthOf(c: VehicleClass): real {
    match c case Motorcycle => 2.0 case Car => 4.5 case Bus => 12.0 case Truck => 10.0
  }

  function Agility(c: VehicleClass): real {
    match c case Motorcycle => 1.15 case Car => 1.0 case Bus => 0.85 case Truck => 0.8
  }

  function Headway(c: VehicleClass): real {
    match c case Motorcycle => 1.2 case Car => 2.2 case Bus => 3.0 case Truck => 2.8
  }

  function CapacityFactor(w: Weather): (f: real)
    ensures f > 0.0
  {
    match w case Sunny => 1.0 case LightRain => 0.85 case HeavyRain => 0.65
  }

  function HeadwayFactor(w: Weather): real {
    match w case Sunny => 1.0 case LightRain => 1.2 case HeavyRain => 1.6
  }

  function Min(a: real, b: real): real { if a <= b then a else b }

  function Max(a: real, b: real): real { if a >= b then a else b }

  function Abs(a: real): real { if a >= 0.0 then a else -a }

  // ----- segment times -----

  /** How a closed segment's time is stored: as computed, or rounded to hundredths as the source
      does.  The bookkeeping below is proved for both. */
  datatype Rounding = Exact | Hundredths {
    function Slack(): real {
      if Exact? then 0.0 else 0.005
    }
  }

  /** Round half to even at two decimals. */
  function Round2(x: real): real {
    var f := (x * 100.0).Floor;
    var d := x * 100.0 - f as real;
    (if d < 0.5 || (d == 0.5 && f % 2 == 0) then f else f + 1) as real / 100.0
  }

  /** The stored time is the nearest whole number of hundredths, the even one of two equally near. */
  lemma Round2IsNearest(x: real) returns (k: int)
    ensures Round2(x) == k as real / 100.0 && Abs(x * 100.0 - k as real) <= 0.5
    ensures Abs(x * 100.0 - k as real) == 0.5 ==> k % 2 == 0
  {
    var f := (x * 100.0).Floor;
    var d := x * 100.0 - f as real;
    k := if d < 0.5 || (d == 0.5 && f % 2 == 0) then f else f + 1;
  }

  function Store(r: Rounding, x: real): (y: real)
    ensures Abs(y - x) <= r.Slack()
  {
    if r.Exact? then x else Round2(x)
  }

  ghost function Sum<K>(m: map<K, real>): real
    decreases |m|
  {
    if m == map[] then 0.0 else
      var k :| k in m;
      assert (m - {k}).Keys == m.Keys - {k};
      assert |m - {k}| < |m|;
      m[k] + Sum(m - {k})
  }

  lemma {:induction false} SumSplit<K>(m: map<K, real>, k: K)
    requires k in m
    ensures Sum(m) == m[k] + Sum(m - {k})
    decreases |m|
  {
    var j :| j in m && Sum(m) == m[j] + Sum(m - {j});
    if j != k {
      assert (m - {j}).Keys == m.Keys - {j};
      assert |m - {j}| < |m|;
      SumSplit(m - {j}, k);
      assert (m - {k}).Keys == m.Keys - {k};
      assert |m - {k}| < |m|;
      SumSplit(m - {k}, j);
      assert m - {j} - {k} == m - {k} - {j};
    }
  }

  /** Changing one entry changes the sum by the difference. */
  lemma SumUpdate<K>(m: map<K, real>, k: K, x: real)
    ensures Sum(m[k := x]) == Sum(m) - (if k in m then m[k] else 0.0) + x
  {
    SumSplit(m[k := x], k);
    assert m[k := x] - {k} == m - {k};
    if k in m {
      SumSplit(m, k);
    } else {
      assert m - {k} == m;
    }
  }

  // ----- motion arithmetic -----

  lemma MulNonneg(a: real, b: real)
    requires a >= 0.0 && b >= 0.0
    ensures a * b >= 0.0 && (a > 0.0 && b > 0.0 ==> a * b > 0.0)
  {
  }

  /** Distance covered at `kmh` in `dt`, in units of `scale` metres. */
  function Advance(kmh: real, dt: real, scale: real): (d: real)
    requires kmh >= 0.0 && dt >= 0.0 && scale >= 1.0
    ensures d >= 0.0 && (kmh > 0.0 && dt > 0.0 ==> d > 0.0)
  {
    var m := kmh / 3.6 * dt;
    assert m >= 0.0 && (kmh > 0.0 && dt > 0.0 ==> m > 0.0) by { MulNonneg(kmh / 3.6, dt); }
    Quotient(m, scale);
    m / scale
  }

  /** The unit: `d` units of `scale` metres in `dt` seconds are `kmh` thousand metres in 3600 seconds. */
  lemma AdvanceUnits(kmh: real, dt: real, scale: real)
    requires kmh >= 0.0 && dt >= 0.0 && scale >= 1.0
    ensures Advance(kmh, dt, scale) * scale * 3600.0 == kmh * dt * 1000.0
  {
    var m := kmh / 3.6 * dt;
    assert m / scale * scale == m;
    assert kmh / 3.6 * 3.6 == kmh;
    assert m * 3.6 == kmh / 3.6 * 3.6 * dt;
  }

  lemma Quotient(a: real, b: real)
    requires a >= 0.0 && b > 0.0
    ensures a / b >= 0.0 && (a > 0.0 ==> a / b > 0.0)
  {
  }

  /** Slow-down when closer than the wanted gap. */
  function SlowDown(speed: real, gap: real, minGap: real, floor: real): (s: real)
    requires speed >= 0.0 && floor > 0.0
    ensures s >= 0.0 && (speed > 0.0 ==> s > 0.0)
    ensures floor <= 1.0 && gap < minGap ==> s <= speed
  {
    QuotientBelowOne(gap, Max(minGap, 0.001));
    Scale(speed, Max(floor, gap / Max(minGap, 0.001)))
  }

  function Scale(speed: real, ratio: real): (s: real)
    requires speed >= 0.0 && ratio > 0.0
    ensures s >= 0.0 && (speed > 0.0 ==> s > 0.0) && (ratio <= 1.0 ==> s <= speed)
  {
    MulNonneg(speed, ratio);
    assert ratio <= 1.0 ==> speed * ratio <= speed by {
      if ratio <= 1.0 {
        MulNonneg(speed, 1.0 - ratio);
      }
    }
    speed * ratio
  }

  lemma ScaleExceedsIff(speed: real, ratio: real)
    requires speed > 0.0 && ratio > 0.0
    ensures Scale(speed, ratio) > speed <==> ratio > 1.0
  {
    if ratio > 1.0 {
      MulNonneg(speed, ratio - 1.0);
    }
  }

  lemma QuotientBelowOne(a: real, b: real)
    requires b > 0.0
    ensures a <= b ==> a / b <= 1.0
  {
  }

  /** The speed of class `c` on a free road. */
  function FreeFlow(vFree: real, c: VehicleClass, w: Weather): (s: real)
    requires vFree >= 10.0
    ensures s > 0.0
  {
    vFree * CapacityFactor(w) * Agility(c)
  }

  /** What decides a vehicle's speed on an edge, as it was before the tick. */
  datatype Motion = Motion(position: real, dwell: real, state: VehicleState)

  /** The wanted gap on an edge, in metres. */
  function EdgeGap(c: VehicleClass, speed: real, aheadSpeed: real, w: Weather): real {
    if aheadSpeed < 1.0 && speed < 3.6 then LengthOf(c) + GAP_M
    else LengthOf(c) + Max(Max(aheadSpeed, speed), 5.0) / 3.6 * (Headway(c) * HeadwayFactor(w))
  }

  /** Metres per unit of position: up to the stop line, and across the node. */
  function LaneScale(position: real): real {
    if position < STOP_LINE then LANE_M else CROSSING_M
  }

  /** The wanted gap to the vehicle ahead, in units of `scale` metres. */
  function MinGapUnits(c: VehicleClass, speed: real, aheadSpeed: real, w: Weather, scale: real): real {
    var gapM :=
      if aheadSpeed < 1.0 && speed < 1.0 then LengthOf(c) + GAP_M
      else LengthOf(c) + Max(Max(aheadSpeed, speed), 5.0) / 3.6 * (Headway(c) * HeadwayFactor(w));
    gapM / Max(scale, 1.0)
  }

  /** Pulling away from a stop: the share of the speed reached with `left` seconds of start-up left. */
  function RampFactor(left: real): (f: real)
    ensures f >= 0.3
  {
    Max(0.3, Max(0.0, 1.0 - left / 2.5))
  }

  /** Turning slows a vehicle down once it is past the stop line. */
  function TurnFactor(lane: Movement): (f: real)
    ensures 0.6 <= f <= 1.0
  {
    match lane case Left => 0.6 case Right => 0.8 case Straight => 1.0
  }

  /** Slowed down to at least a tenth when the vehicle ahead is nearer than wanted. */
  function LaneSpeed(c: VehicleClass, wanted: real, from: real, speed: real, ahead: Vehicle?, w: Weather, scale: real): (s: real)
    requires wanted >= 0.0
    reads ahead
    ensures s >= 0.0 && (wanted > 0.0 ==> s > 0.0)
  {
    if ahead == null || ahead.position - from >= MinGapUnits(c, speed, ahead.speed, w, scale) then wanted
    else SlowDown(wanted, ahead.position - from, MinGapUnits(c, speed, ahead.speed, w, scale), 0.1)
  }

  /** What a held motorcycle leaves to the motorcycle ahead of it, in units of the approach lane. */
  function MotoGap(c: VehicleClass): real {
    (LengthOf(c) + 0.3) / LANE_M
  }

  /** A held motorcycle filters past another class always, and behind a motorcycle when that one stands
      before the stop line with room to close up. */
  ghost predicate Filters(c: VehicleClass, ahead: Vehicle?, from: real)
    reads ahead
  {
    c.Motorcycle? && ahead != null
    && (ahead.class_.Motorcycle? ==> ahead.position <= STOP_LINE && ahead.position - from > MotoGap(c) * 1.5)
  }

  /** Where filtering at 5 km/h takes it: up to 0.03 beyond another class, up to a gap behind a motorcycle. */
  ghost function FilteredTo(c: VehicleClass, ahead: Vehicle, from: real, stop: real, dt: real): real
    requires dt >= 0.0
    reads ahead
  {
    var limit := if ahead.class_.Motorcycle? then ahead.position - MotoGap(c) else ahead.position + 0.03;
    Min(Min(from + Advance(5.0, dt, LANE_M), limit), stop)
  }

  /** Filtering never passes `stop`, and loses ground only behind another class further back. */
  lemma FilteredBounds(c: VehicleClass, ahead: Vehicle?, position: real, stop: real, dt: real)
    requires position >= 0.0 && stop > 0.0 && dt >= 0.0 && (ahead != null ==> ahead.position >= 0.0)
    ensures var from := Min(position, stop);
            Filters(c, ahead, from) ==>
              && 0.0 <= FilteredTo(c, ahead, from, stop, dt) <= stop
              && (position <= stop && !SetBack(c, ahead, position) ==> FilteredTo(c, ahead, from, stop, dt) >= position)
    ensures 0.0 <= Min(position, stop) <= stop && (position <= stop ==> Min(position, stop) == position)
  {
    hide Advance;
  }

  /** Filtering goes as far as 5 km/h, the stop and the vehicle ahead allow, and no farther: behind a
      motorcycle its own length and 30 cm stay free, another class is passed by at most 3 m. */
  lemma FiltersAsFarAsItMay(c: VehicleClass, ahead: Vehicle, from: real, stop: real, dt: real, x: real)
    requires Filters(c, ahead, from) && dt >= 0.0
    ensures x <= FilteredTo(c, ahead, from, stop, dt) <==>
              && x <= stop && (x - from) * LANE_M <= Advance(5.0, dt, 1.0)
              && if ahead.class_.Motorcycle? then (ahead.position - x) * LANE_M >= LengthOf(c) + 0.3
                 else (x - ahead.position) * LANE_M <= 3.0
  {
    LaneMetres(5.0, dt, 0.0);
  }

  /** It is begun only with room for more than its length, and then never backwards behind a motorcycle. */
  lemma FilteringNeedsRoom(c: VehicleClass, ahead: Vehicle, from: real, stop: real, dt: real)
    requires Filters(c, ahead, from) && ahead.class_.Motorcycle? && dt >= 0.0 && from <= stop
    ensures c.Motorcycle? && ahead.position <= STOP_LINE && (ahead.position - from) * LANE_M > 1.5 * (LengthOf(c) + 0.3)
    ensures FilteredTo(c, ahead, from, stop, dt) >= from
  {
  }

  /** A motorcycle held behind another class is put at most 0.03 beyond that vehicle, which moves
      it backwards when the vehicle ahead has just left the node and stands at 0 on its next edge. */
  ghost predicate SetBack(c: VehicleClass, ahead: Vehicle?, position: real)
    reads ahead
  {
    c.Motorcycle? && ahead != null && !ahead.class_.Motorcycle? && ahead.position + 0.03 < position
  }

  // ----- keeping a distance -----

  lemma AtMostProduct(a: real, b: real, x: real, y: real)
    requires 0.0 <= a <= b && 0.0 <= x <= y
    ensures a * x <= b * y
  {
    MulNonneg(b - a, x);
    MulNonneg(b, y - x);
  }

  lemma SlowestFreeFlow(vFree: real, c: VehicleClass, w: Weather)
    requires vFree >= 10.0
    ensures FreeFlow(vFree, c, w) >= 5.2
  {
    AtMostProduct(0.65, CapacityFactor(w), 10.0, vFree);
    AtMostProduct(0.8, Agility(c), 6.5, vFree * CapacityFactor(w));
  }

  /** The distance is proportional to the speed. */
  lemma AdvanceScales(kmh: real, k: real, dt: real, scale: real)
    requires kmh >= 0.0 && k >= 0.0 && dt >= 0.0 && scale >= 1.0
    ensures kmh * k >= 0.0 && Advance(kmh * k, dt, scale) == Advance(kmh, dt, scale) * k
  {
    MulNonneg(kmh, k);
    AdvanceUnits(kmh, dt, scale);
    AdvanceUnits(kmh * k, dt, scale);
  }

  /** A vehicle whose wanted gap is longer than its step, and which slows down in proportion to the
      gap but not below the share `floor`, covers the gap in one step exactly when `floor` alone does. */
  lemma CloseUp(speed: real, gap: real, minGap: real, floor: real, dt: real, scale: real)
    requires speed >= 0.0 && minGap >= 0.001 && 0.0 < floor <= 1.0 && dt >= 0.0 && scale >= 1.0
    requires Advance(speed, dt, scale) < minGap
    ensures var kept := if gap >= minGap then speed else SlowDown(speed, gap, minGap, floor);
            Advance(kept, dt, scale) < gap <==> Advance(speed * floor, dt, scale) < gap
  {
    hide Advance;
    AdvanceScales(speed, floor, dt, scale);
    var share := Max(floor, gap / minGap);
    assert minGap == Max(minGap, 0.001);
    assert gap < minGap ==> SlowDown(speed, gap, minGap, floor) == speed * share;
    AdvanceScales(speed, share, dt, scale);
    CloseUpShare(Advance(speed, dt, scale), gap, minGap, floor);
  }

  lemma CloseUpShare(step: real, gap: real, minGap: real, floor: real)
    requires 0.0 <= step < minGap && 0.0 < floor <= 1.0
    ensures gap >= minGap ==> step * floor < gap
    ensures step * Max(floor, gap / minGap) < gap <==> step * floor < gap
  {
    var q := gap / minGap;
    assert q * minGap == gap;
    Shares(step, minGap, floor);
    AtMostProduct(floor, 1.0, minGap, minGap);
    if q > floor {
      Shares(step, minGap, q);
      AtMostProduct(floor, q, minGap, minGap);
    }
  }

  /** A free road leaves room: whatever the vehicle ahead does, one that wants the free speed `free`
      needs more than the headway of its class to cover the gap it asks for. */
  lemma GapOutlastsHeadway(c: VehicleClass, free: real, aheadSpeed: real, w: Weather, dt: real)
    requires free >= 3.6 && 0.0 <= dt <= Headway(c) * HeadwayFactor(w)
    ensures LengthOf(c) + Advance(free, dt, 1.0) <= EdgeGap(c, free, aheadSpeed, w)
  {
    var top := Max(Max(aheadSpeed, free), 5.0);
    AtMostProduct(free / 3.6, top / 3.6, dt, Headway(c) * HeadwayFactor(w));
  }

  /** The gaps wanted on an edge and in a lane are the same distance exactly unless the vehicle ahead
      stands and the speed is one that only the edge takes for standing. */
  lemma GapsAgreeIff(c: VehicleClass, speed: real, aheadSpeed: real, w: Weather, scale: real)
    requires scale >= 1.0
    ensures MinGapUnits(c, speed, aheadSpeed, w, scale) * scale == EdgeGap(c, speed, aheadSpeed, w)
            <==> !(aheadSpeed < 1.0 && 1.0 <= speed < 3.6)
  {
    hide LengthOf, Headway, HeadwayFactor;
    var top := Max(Max(aheadSpeed, speed), 5.0) / 3.6;
    var moving := LengthOf(c) + top * (Headway(c) * HeadwayFactor(w));
    assert top * (Headway(c) * HeadwayFactor(w)) > GAP_M by {
      LongHeadway(c, w);
      AtMostProduct(1.2, Headway(c) * HeadwayFactor(w), 5.0 / 3.6, top);
    }
    var gap := if aheadSpeed < 1.0 && speed < 1.0 then LengthOf(c) + GAP_M else moving;
    assert MinGapUnits(c, speed, aheadSpeed, w, scale) * scale == gap by {
      assert gap / scale * scale == gap;
    }
  }

  lemma LongHeadway(c: VehicleClass, w: Weather)
    ensures Headway(c) * HeadwayFactor(w) >= 1.2
  {
  }

  /** In metres: a lane is 100 m long up to the stop line, and 30 m across the node. */
  lemma LaneMetres(kmh: real, dt: real, from: real)
    requires kmh >= 0.0 && dt >= 0.0
    ensures Advance(kmh, dt, 1.0) == Advance(kmh, dt, LaneScale(from)) * (if from >= STOP_LINE then 30.0 else 100.0)
  {
    AdvanceUnits(kmh, dt, 1.0);
    AdvanceUnits(kmh, dt, LaneScale(from));
  }

  /** Pulling away takes 2.5 s from a lowest share of 0.3, which is left after 0.75 s, to the whole speed.
      It only slows down, except in a step that overruns it: that one is faster than the whole speed. */
  lemma RampOvershootsIff(left: real, longer: real)
    requires left <= longer
    ensures RampFactor(longer) <= RampFactor(left) && RampFactor(0.0) == 1.0
    ensures RampFactor(left) > 1.0 <==> left < 0.0
    ensures RampFactor(left) == 0.3 <==> 2.5 - left <= 0.75
  {
  }

  /** Turning is slower than driving straight on, and a left turn the slowest. */
  lemma TurnsAreSlower()
    ensures TurnFactor(Left) < TurnFactor(Right) < TurnFactor(Straight) == 1.0
  {
  }

  /** Weather at least as bad as `v`. */
  predicate NoBetter(w: Weather, v: Weather) {
    v.Sunny? || w == v || w.HeavyRain?
  }

  /** Worse weather slows a free vehicle down by less than it lengthens the headway. */
  lemma WorseWeather(w: Weather, v: Weather, vFree: real, c: VehicleClass)
    requires NoBetter(w, v) && vFree >= 10.0
    ensures FreeFlow(vFree, c, w) <= FreeFlow(vFree, c, v)
    ensures FreeFlow(vFree, c, v) * HeadwayFactor(v) <= FreeFlow(vFree, c, w) * HeadwayFactor(w)
    ensures HeadwayFactor(v) <= HeadwayFactor(w)
  {
    var base := vFree * Agility(c);
    MulNonneg(vFree, Agility(c));
    forall u: Weather ensures FreeFlow(vFree, c, u) == base * CapacityFactor(u) {
      assert vFree * CapacityFactor(u) * Agility(c) == vFree * Agility(c) * CapacityFactor(u);
    }
    AtMostProduct(CapacityFactor(w), CapacityFactor(v), base, base);
    AtMostProduct(CapacityFactor(v) * HeadwayFactor(v), CapacityFactor(w) * HeadwayFactor(w), base, base);
  }

  /** And it never shortens the wanted gap. */
  lemma WorseWeatherWidens(w: Weather, v: Weather, vFree: real, c: VehicleClass, aheadSpeed: real)
    requires NoBetter(w, v) && vFree >= 10.0
    ensures LengthOf(c) <= EdgeGap(c, FreeFlow(vFree, c, v), aheadSpeed, v) <= EdgeGap(c, FreeFlow(vFree, c, w), aheadSpeed, w)
  {
    hide FreeFlow;
    SlowestFreeFlow(vFree, c, w);
    SlowestFreeFlow(vFree, c, v);
    GapOutlastsHeadway(c, FreeFlow(vFree, c, v), aheadSpeed, v, 0.0);
    WorseWeather(w, v, vFree, c);
    var s, t := Max(Max(aheadSpeed, FreeFlow(vFree, c, v)), 5.0), Max(Max(aheadSpeed, FreeFlow(vFree, c, w)), 5.0);
    assert s * HeadwayFactor(v) <= t * HeadwayFactor(w) by {
      if s > FreeFlow(vFree, c, v) {
        AtMostProduct(s, t, HeadwayFactor(v), HeadwayFactor(w));
      } else {
        AtMostProduct(FreeFlow(vFree, c, w), t, HeadwayFactor(w), HeadwayFactor(w));
      }
    }
    AtMostProduct(s * HeadwayFactor(v), t * HeadwayFactor(w), Headway(c) / 3.6, Headway(c) / 3.6);
    HeadwayOf(s, c, v);
    HeadwayOf(t, c, w);
  }

  lemma HeadwayOf(s: real, c: VehicleClass, w: Weather)
    ensures s / 3.6 * (Headway(c) * HeadwayFactor(w)) == s * HeadwayFactor(w) * (Headway(c) / 3.6)
  {
  }

  /** A longer vehicle counts for no fewer PCU and keeps no shorter headway; one that counts for more is
      less agile. */
  lemma LongerIsHeavier(c: VehicleClass, d: VehicleClass)
    ensures LengthOf(c) <= LengthOf(d) ==> Pcu(c) <= Pcu(d) && Headway(c) <= Headway(d)
    ensures Pcu(c) < Pcu(d) ==> Agility(c) > Agility(d)
  {
  }

  /** A lower speed and a wider gap to keep make a lower speed that follows. */
  lemma SlowerShare(slow: real, fast: real, gap: real, near: real, wide: real)
    requires 0.0 <= slow <= fast && 0.001 <= near <= wide
    ensures gap < near ==> SlowDown(slow, gap, wide, 0.15) <= SlowDown(fast, gap, near, 0.15)
    ensures near <= gap < wide ==> SlowDown(slow, gap, wide, 0.15) <= slow
  {
    if gap < near {
      SmallerShare(gap, near, wide);
      AtMostProduct(slow, fast, Max(0.15, gap / wide), Max(0.15, gap / near));
    }
  }

  lemma SmallerShare(gap: real, near: real, wide: real)
    requires 0.0 < near <= wide
    ensures Max(0.15, gap / wide) <= Max(0.15, gap / near)
  {
    if gap > 0.0 {
      AtMostProduct(gap / wide, gap / wide, near, wide);
      assert gap / wide * wide == gap && gap / near * near == gap;
    }
  }

  lemma Shares(a: real, b: real, k: real)
    requires a < b && k > 0.0
    ensures a * k < b * k
  {
    MulNonneg(b - a, k);
  }

  class Vehicle {
    const id: nat
    const class_: VehicleClass
    const priority: bool
    const vFree: real
    var route: Route
    var index: nat
    var place: Place
    var state: VehicleState
    var position: real
    var speed: real
    var dwell: real
    var startup: real
    var wasWaiting: bool
    var segments: map<Context, real>
    var segEnter: real
    /** History: the planned destination, the simulation time of the spawn, the segments closed. */
    ghost const dest: Node
    ghost const spawnedAt: real
    ghost var closed: nat

    constructor (id: nat, route: Route, c: VehicleClass, priority: bool, vFree: real, now: real)
      requires |route| > 1 && vFree >= 10.0
      ensures this.id == id && this.class_ == c && this.priority == priority && this.vFree == vFree
      ensures this.route == route && index == 0 && place == OnEdge(EdgeId(route[0], route[1]))
      ensures state == Transit && position == 0.0 && segments == map[] && segEnter == now
      ensures dest == route[|route| - 1] && spawnedAt == now && closed == 0
    {
      this.id, this.class_, this.priority, this.vFree := id, c, priority, vFree;
      this.route, index, place := route, 0, OnEdge(EdgeId(route[0], route[1]));
      state, position, speed := Transit, 0.0, vFree;
      dwell, startup, wasWaiting := 0.0, 0.0, false;
      segments, segEnter := map[], now;
      dest, spawnedAt, closed := route[|route| - 1], now, 0;
    }

    /** The place `p` and the state `st` agree with the route. */
    ghost predicate LocatedAt(p: Place, st: VehicleState)
      reads this`route, this`index
    {
      && index + 1 < |route|
      && match p
         case OnEdge(e) =>
           && e == EdgeId(route[index], route[index + 1])
           && (st == Transit || st == Congested || st == BlockedAtEntry)
         case InLane(n, _, _) =>
           && IsIntersection(n)
           && (st == Moving || st == Waiting || st == Congested || st == BlockedAtExit)
           && n == (if st == BlockedAtExit then route[index] else route[index + 1])
           && (st == BlockedAtExit ==> index > 0)
    }

    ghost predicate Located()
      reads this
    {
      LocatedAt(place, state)
    }

    /** Located there, and strictly inside the edge or strictly before the exit point of the node; a
        vehicle blocked at the exit stands right before it. */
    ghost predicate SettledAt(p: Place, st: VehicleState, x: real)
      reads this`route, this`index
    {
      LocatedAt(p, st) && Within(p, x) && (st == BlockedAtExit ==> x == EXIT_POINT - 0.01)
    }

    /** The stored segment times add up to the time since the spawn, up to rounding. */
    ghost predicate TimesAddUp(now: real, r: Rounding)
      reads this`segments, this`segEnter, this`closed
    {
      && spawnedAt <= segEnter <= now
      && Abs(Sum(segments) - (segEnter - spawnedAt)) <= r.Slack() * closed as real
    }

    /** The route is a path of the network, still ends at the planned destination, and meets it only there. */
    ghost predicate RouteOk()
      reads this`route
    {
      IsPath(route) && route[|route| - 1] == dest && OnlyAtEnd(route, dest)
    }

    /** What lies behind, after the start, are intersections: a boundary node ends the trip. */
    ghost predicate Travelled()
      reads this`route, this`index
    {
      forall k :: 1 <= k <= index && k < |route| - 1 ==> IsIntersection(route[k])
    }

    /** What holds of a vehicle at every moment. */
    ghost predicate Core(now: real, r: Rounding)
      reads this
    {
      && vFree >= 10.0
      && 0.0 <= position
      && RouteOk() && Travelled()
      && TimesAddUp(now, r)
    }

    /** What holds in addition whenever the vehicle is not being moved. */
    ghost predicate Settled()
      reads this
    {
      state != ExitedNetwork ==> SettledAt(place, state, position)
    }

    method RecordTick()
      modifies this`wasWaiting
      ensures wasWaiting == (state == Waiting)
    {
      wasWaiting := state == Waiting;
    }

    /** The time already stored for the current segment. */
    function SoFar(): real
      reads this`place, this`segments
    {
      if ContextOf(place) in segments then segments[ContextOf(place)] else 0.0
    }

    /** The time stored for the current segment if it is closed at `now`. */
    function TimeUpTo(now: real, r: Rounding): real
      reads this`place, this`segments, this`segEnter
    {
      Store(r, SoFar() + (now - segEnter))
    }

    /** Flushes the time of the current segment. */
    method CloseSegment(now: real, r: Rounding)
      requires TimesAddUp(now, r)
      modifies this`segments, this`segEnter, this`closed
      ensures segEnter == now && closed == old(closed) + 1 && TimesAddUp(now, r)
      ensures segments == old(segments)[ContextOf(place) := old(TimeUpTo(now, r))]
    {
      var key := ContextOf(place);
      var elapsed := now - segEnter;
      var prev := SoFar();
      SumUpdate(segments, key, Store(r, prev + elapsed));
      segments := segments[key := Store(r, prev + elapsed)];
      segEnter := now;
      closed := closed + 1;
      assert closed as real == old(closed) as real + 1.0;
    }

    function MotionNow(): Motion
      reads this`position, this`dwell, this`state
    {
      Motion(position, dwell, state)
    }

    /** Free flow, or slowed down to at least 15 % of it when the vehicle ahead is nearer than wanted. */
    function FollowSpeed(ahead: Vehicle?, from: real, w: Weather): real
      requires vFree >= 10.0
      reads ahead
    {
      var free := FreeFlow(vFree, class_, w);
      if ahead == null || ahead.position - from >= EdgeGap(class_, free, ahead.speed, w) then free
      else SlowDown(free, ahead.position - from, EdgeGap(class_, free, ahead.speed, w), 0.15)
    }

    /** The speed on an edge after a tick: that of a bus at its stop, or the one that follows. */
    predicate SpeedLaw(before: Motion, ahead: Vehicle?, w: Weather, dt: real)
      reads this`speed, this`dwell, ahead
    {
      && vFree >= 10.0
      && if before.dwell > 0.0 then speed == BUS_DWELL_KMH && dwell == before.dwell - dt
         else
           || (class_.Bus? && speed == BUS_DWELL_KMH && dwell == BUS_DWELL_SEC - dt)
           || (dwell == before.dwell && speed == FollowSpeed(ahead, before.position, w))
    }

    /** One tick on an edge.  The caller handles reaching the end of the edge. */
    method Drive(ahead: Vehicle?, dwells: bool, w: Weather, dt: real)
      requires ahead != this && vFree >= 10.0 && dt >= 0.0
      requires state == Transit || state == Congested
      modifies this`position, this`state, this`speed, this`dwell, this`wasWaiting
      ensures speed > 0.0 && position == old(position) + Advance(speed, dt, 1.0)
      ensures state == Transit || state == Congested
      ensures !wasWaiting
      ensures SpeedLaw(old(MotionNow()), ahead, w, dt) && speed <= Max(BUS_DWELL_KMH, FreeFlow(vFree, class_, w))
      ensures old(dwell) <= 0.0 && class_.Bus? && dwells ==> speed == BUS_DWELL_KMH && dwell == BUS_DWELL_SEC - dt
      ensures old(dwell) <= 0.0 && !(class_.Bus? && dwells) ==>
                && dwell == old(dwell)
                && (state == Transit <==>
                      (ahead == null
                       || ahead.position - old(position) >= EdgeGap(class_, FreeFlow(vFree, class_, w), ahead.speed, w)))
    {
      if class_.Bus? && dwell <= 0.0 && dwells {
        dwell := BUS_DWELL_SEC;
        state := Congested;
      }
      var v := BUS_DWELL_KMH;
      if dwell > 0.0 {
        dwell := dwell - dt;
      } else {
        v := FreeFlow(vFree, class_, w);
        if ahead != null {
          var gap := ahead.position - position;
          var minGap := EdgeGap(class_, v, ahead.speed, w);
          if gap < minGap {
            v := SlowDown(v, gap, minGap, 0.15);
            state := Congested;
          } else {
            state := Transit;
          }
        } else {
          state := Transit;
        }
      }
      speed := v;
      RecordTick();
      position := position + Advance(v, dt, 1.0);
    }

    /** One tick of a vehicle that may not cross: wait at `stop`, filter to the front, or creep. */
    method Hold(ahead: Vehicle?, stop: real, w: Weather, dt: real)
      requires ahead != this && (ahead != null ==> ahead.position >= 0.0)
      requires position >= 0.0 && vFree >= 10.0 && dt >= 0.0 && 0.0 < stop <= STOP_LINE
      modifies this`position, this`state, this`speed, this`wasWaiting
      ensures 0.0 <= position <= stop
      ensures state == Waiting || state == Moving || state == Congested
      ensures old(position >= stop || state == Waiting) ==> state == Waiting && speed == 0.0 && wasWaiting
      ensures old(position) <= stop && !SetBack(class_, ahead, old(position)) ==> position >= old(position)
      ensures Filters(class_, ahead, Min(old(position), stop)) ==> position == FilteredTo(class_, ahead, Min(old(position), stop), stop, dt)
      ensures !Filters(class_, ahead, Min(old(position), stop)) ==>
                if old(position >= stop || state == Waiting) then position == Min(old(position), stop)
                else
                  var creep := LaneSpeed(class_, Min(vFree, 15.0) * CapacityFactor(w), old(position), old(speed), ahead, w, LANE_M);
                  var there := old(position) + Advance(creep, dt, LANE_M);
                  if there >= stop then state == Waiting && position == stop && speed == 0.0
                  else position == there && speed == creep && speed > 0.0
      ensures speed >= 0.0
    {
      hide Advance, LaneSpeed, CapacityFactor, MotoGap, Min;
      if position >= stop || state == Waiting {
        Wait(ahead, stop, dt);
      } else {
        Creep(ahead, stop, w, dt);
      }
      FilteredBounds(class_, ahead, old(position), stop, dt);
    }

    /** At the stop, or already waiting: a motorcycle may still filter. */
    method Wait(ahead: Vehicle?, stop: real, dt: real)
      requires ahead != this && dt >= 0.0 && (position >= stop || state == Waiting)
      modifies this`position, this`state, this`speed, this`wasWaiting
      ensures state == Waiting && speed == 0.0 && wasWaiting
      ensures var from := Min(old(position), stop);
              position == if Filters(class_, ahead, from) then FilteredTo(class_, ahead, from, stop, dt) else from
    {
      hide Advance, MotoGap;
      state := Waiting;
      position := Min(position, stop);
      speed := 0.0;
      RecordTick();
      if class_.Motorcycle? && ahead != null {
        var filter := Advance(5.0, dt, LANE_M);
        if !ahead.class_.Motorcycle? {
          position := Min(Min(position + filter, ahead.position + 0.03), stop);
        } else if ahead.position <= STOP_LINE && ahead.position - position > MotoGap(class_) * 1.5 {
          position := Min(Min(position + filter, ahead.position - MotoGap(class_)), stop);
        }
      }
    }

    /** Before the stop: creep up to it, or filter. */
    method Creep(ahead: Vehicle?, stop: real, w: Weather, dt: real)
      requires ahead != this && dt >= 0.0 && position < stop && state != Waiting && vFree >= 10.0
      modifies this`position, this`state, this`speed, this`wasWaiting
      ensures state == Waiting || state == Moving || state == Congested
      ensures speed >= 0.0
      ensures if Filters(class_, ahead, old(position)) then position == FilteredTo(class_, ahead, old(position), stop, dt) && speed == 5.0
              else
                var creep := LaneSpeed(class_, Min(vFree, 15.0) * CapacityFactor(w), old(position), old(speed), ahead, w, LANE_M);
                var there := old(position) + Advance(creep, dt, LANE_M);
                if there >= stop then state == Waiting && position == stop && speed == 0.0
                else position == there && speed == creep && speed > 0.0
    {
      hide Advance, LaneSpeed, MinGapUnits, CapacityFactor, MotoGap;
      RecordTick();
      MulNonneg(Min(vFree, 15.0), CapacityFactor(w));
      var creep := LaneSpeed(class_, Min(vFree, 15.0) * CapacityFactor(w), position, speed, ahead, w, LANE_M);
      var near := ahead != null && ahead.position - position < MinGapUnits(class_, speed, ahead.speed, w, LANE_M);
      state := if near then Congested else Moving;
      if class_.Motorcycle? && ahead != null {
        var filter := Advance(5.0, dt, LANE_M);
        if !ahead.class_.Motorcycle? {
          position := Min(Min(position + filter, ahead.position + 0.03), stop);
          speed := 5.0;
          return;
        }
        if ahead.position - position > MotoGap(class_) * 1.5 && ahead.position <= STOP_LINE {
          position := Min(Min(position + filter, ahead.position - MotoGap(class_)), stop);
          speed := 5.0;
          return;
        }
      }
      position := Min(position + Advance(creep, dt, LANE_M), stop);
      speed := creep;
      if position >= stop {
        state := Waiting;
        speed := 0.0;
      }
    }

    /** Free flow in a node, less the start-up, an incident on the approach, and the turn. */
    function Cruise(w: Weather, starting: bool, left: real, incident: bool, from: real): (s: real)
      requires vFree >= 10.0 && place.InLane?
      reads this`place
      ensures s > 0.0
    {
      var free := FreeFlow(vFree, class_, w);
      var ramped := if starting then Scale(free, RampFactor(left)) else free;
      var slowed := if incident then ramped * 0.05 else ramped;
      if from < STOP_LINE then slowed else Scale(slowed, TurnFactor(place.lane))
    }

    /** The speed aimed at in a node, with the start-up clock of a vehicle that was waiting. */
    method Pace(incident: bool, w: Weather, dt: real) returns (eff: real)
      requires place.InLane? && vFree >= 10.0
      modifies this`startup, this`wasWaiting
      ensures wasWaiting == (state == Waiting)
      ensures var left := if old(wasWaiting && startup <= 0.0) then 2.5 else old(startup);
              && startup == (if left > 0.0 then left - dt else left)
              && eff == Cruise(w, left > 0.0, startup, incident, position)
    {
      hide FreeFlow, RampFactor, Scale, TurnFactor;
      if wasWaiting && startup <= 0.0 {
        startup := 2.5;
      }
      RecordTick();
      eff := FreeFlow(vFree, class_, w);
      if startup > 0.0 {
        startup := startup - dt;
        eff := Scale(eff, RampFactor(startup));
      }
      if incident {
        eff := eff * 0.05;
      }
      if position >= STOP_LINE {
        eff := Scale(eff, TurnFactor(place.lane));
      }
    }

    /** One tick of a vehicle that may proceed.  The caller handles reaching the exit point. */
    method Proceed(ahead: Vehicle?, incident: bool, w: Weather, dt: real)
      requires ahead != this && place.InLane? && vFree >= 10.0 && dt >= 0.0
      modifies this`position, this`state, this`speed, this`wasWaiting, this`startup
      ensures speed > 0.0 && position == old(position) + Advance(speed, dt, LaneScale(old(position)))
      ensures state == Moving || state == Congested
      ensures wasWaiting == (old(state) == Waiting)
      ensures var left := if old(wasWaiting && startup <= 0.0) then 2.5 else old(startup);
              && startup == (if left > 0.0 then left - dt else left)
              && speed == LaneSpeed(class_, Cruise(w, left > 0.0, startup, incident, old(position)), old(position), old(speed), ahead, w, LaneScale(old(position)))
    {
      hide Advance, LaneSpeed, MinGapUnits, Cruise;
      var eff := Pace(incident, w, dt);
      var scale := LaneScale(position);
      var tight := ahead != null && ahead.position - position < MinGapUnits(class_, speed, ahead.speed, w, scale);
      eff := LaneSpeed(class_, eff, position, speed, ahead, w, scale);
      if tight || (position < STOP_LINE && eff < vFree * 0.5) {
        state := Congested;
      } else {
        state := Moving;
      }
      position := position + Advance(eff, dt, scale);
      speed := eff;
    }

    // ----- what the wanted gaps are good for -----

    /** On an edge a step of at most the headway takes a vehicle to where the one ahead stood exactly
        when crawling at 15 % of its free speed does: only a vehicle that is that close already. */
    lemma StaysBehindIff(ahead: Vehicle, from: real, w: Weather, dt: real)
      requires vFree >= 10.0 && 0.0 <= dt <= Headway(class_) * HeadwayFactor(w)
      ensures from + Advance(FollowSpeed(ahead, from, w), dt, 1.0) < ahead.position
              <==> from + Advance(FreeFlow(vFree, class_, w) * 0.15, dt, 1.0) < ahead.position
    {
      hide EdgeGap;
      var free := FreeFlow(vFree, class_, w);
      SlowestFreeFlow(vFree, class_, w);
      GapOutlastsHeadway(class_, free, ahead.speed, w, dt);
      CloseUp(free, ahead.position - from, EdgeGap(class_, free, ahead.speed, w), 0.15, dt, 1.0);
    }

    /** In a lane the same holds when the speed aimed at takes longer than the step for the wanted gap. */
    static lemma StaysBehindInLaneIff(c: VehicleClass, wanted: real, from: real, speed: real, ahead: Vehicle, w: Weather, scale: real, dt: real)
      requires wanted >= 0.0 && scale >= 1.0 && 0.0 <= dt && MinGapUnits(c, speed, ahead.speed, w, scale) >= 0.001
      requires Advance(wanted, dt, scale) < MinGapUnits(c, speed, ahead.speed, w, scale)
      ensures from + Advance(LaneSpeed(c, wanted, from, speed, ahead, w, scale), dt, scale) < ahead.position
              <==> from + Advance(wanted * 0.1, dt, scale) < ahead.position
    {
      hide MinGapUnits;
      CloseUp(wanted, ahead.position - from, MinGapUnits(c, speed, ahead.speed, w, scale), 0.1, dt, scale);
    }

    /** In a node nothing makes a vehicle faster than free flow, except a start-up step that overruns the
        start-up, on a free approach lane. */
    lemma CruiseExceedsFreeFlowIff(w: Weather, starting: bool, left: real, incident: bool, from: real)
      requires vFree >= 10.0 && place.InLane?
      ensures from < STOP_LINE && !incident ==> (Cruise(w, starting, left, incident, from) > FreeFlow(vFree, class_, w) <==> starting && left < 0.0)
      ensures !(starting && left < 0.0) ==> Cruise(w, starting, left, incident, from) <= FreeFlow(vFree, class_, w)
    {
      hide FreeFlow, RampFactor, TurnFactor, Scale;
      RampOvershootsIff(left, left);
      var free := FreeFlow(vFree, class_, w);
      ScaleExceedsIff(free, RampFactor(left));
      var ramped := if starting then Scale(free, RampFactor(left)) else free;
      assert ramped > 0.0 && (ramped > free <==> starting && left < 0.0);
    }

    /** Worse weather never lets a vehicle go faster behind the same vehicle at the same distance. */
    lemma WorseWeatherIsSlower(ahead: Vehicle?, from: real, w: Weather, v: Weather)
      requires vFree >= 10.0 && NoBetter(w, v)
      ensures FollowSpeed(ahead, from, w) <= FollowSpeed(ahead, from, v)
    {
      hide EdgeGap, FreeFlow, CapacityFactor, HeadwayFactor, SlowDown;
      WorseWeather(w, v, vFree, class_);
      if ahead != null {
        var fast, slow := FreeFlow(vFree, class_, v), FreeFlow(vFree, class_, w);
        WorseWeatherWidens(w, v, vFree, class_, ahead.speed);
        var near, wide := EdgeGap(class_, fast, ahead.speed, v), EdgeGap(class_, slow, ahead.speed, w);
        var gap := ahead.position - from;
        SlowerShare(slow, fast, gap, near, wide);
      }
    }

  }
}
