/** The city network engine of `simulator/traffic_engine.py`: vehicles are spawned at boundary
    nodes, move between edge lists and lane lists, and leave with a trip record. */
module TrafficEngine {
  import opened Options
  import opened Network
  import opened Phases
  import opened Routes
  import opened PhaseClock
  import opened Vehicles
  import opened VehicleLists

  const BOUNDARY_NODES := [N1, W1, S1, E1, E2]
  const INTERSECTIONS := [A, B, C, D]
  const DIRECTIONS := [North, South, East, West]
  const LANES := [Straight, Left, Right]
  const EDGE_IDS: seq<EdgeId> := [
    EdgeId(N1, A), EdgeId(A, N1), EdgeId(W1, A), EdgeId(A, W1), EdgeId(A, B), EdgeId(B, A),
    EdgeId(A, C), EdgeId(C, A), EdgeId(B, E1), EdgeId(E1, B), EdgeId(B, D), EdgeId(D, B),
    EdgeId(C, D), EdgeId(D, C), EdgeId(B, S1), EdgeId(S1, B), EdgeId(D, E1), EdgeId(E1, D),
    EdgeId(C, S1), EdgeId(S1, C), EdgeId(D, E2), EdgeId(E2, D)]

  const TRIP_LIMIT := 2000
  const HIGH_DENSITY := 140.0
  const BOX_THRESHOLD := 0.85

  datatype TripRecord = TripRecord(vehicleId: nat, class_: VehicleClass, segments: map<Context, real>)

  /** History of one exit: who left, with which record, when, after how many segments, on which route, at
      which position of it, and whether it was blocked there with one hop left. */
  datatype Exit = Exit(vehicle: Vehicle, trip: TripRecord, at: real, closed: nat, route: Route, hop: nat, blocked: bool)

  function EdgeLength(e: EdgeId): (len: real)
    ensures IsEdge(e.from, e.to) ==> len >= 200.0
  {
    match Lookup(e.from, e.to)
    case Some(row) => row.length
    case None => 0.0
  }

  /** Jam density is 200 PCU per kilometre. */
  function EdgeMaxPcu(e: EdgeId): real {
    EdgeLength(e) * 200.0 / 1000.0
  }

  /** `n` vehicles of class `c` within the capacity of `e` find room on it bumper to bumper. */
  predicate RoomFor(n: nat, c: VehicleClass, e: EdgeId) {
    n as real * Pcu(c) <= EdgeMaxPcu(e) ==> n as real * LengthOf(c) <= EdgeLength(e)
  }

  lemma OnePcuPerFiveMetres(e: EdgeId)
    ensures EdgeMaxPcu(e) * 5.0 == EdgeLength(e)
  {
  }

  /** An edge is long enough for every queue of its capacity in one class, motorcycles excepted. */
  lemma JamFitsIff(c: VehicleClass)
    ensures (forall n: nat, e: EdgeId :: IsEdge(e.from, e.to) ==> RoomFor(n, c, e)) <==> !c.Motorcycle?
  {
    if c.Motorcycle? {
      assert IsEdge(EdgeId(N1, A).from, EdgeId(N1, A).to) && !RoomFor(150, c, EdgeId(N1, A));
    }
  }

  /** The kept records are those of the last exits, at most TRIP_LIMIT of them. */
  ghost predicate AreLast(trips: seq<TripRecord>, exits: seq<Exit>) {
    && |trips| == (if |exits| < TRIP_LIMIT then |exits| else TRIP_LIMIT)
    && forall i :: 0 <= i < |trips| ==> trips[i] == exits[|exits| - |trips| + i].trip
  }

  /** The log names each vehicle that left exactly once, and each record's segment times add up to
      the time the vehicle spent in the network, up to the rounding of its closed segments. */
  ghost predicate ExitLog(exits: seq<Exit>, left: set<Vehicle>, r: Rounding) {
    && (forall i, j :: 0 <= i < j < |exits| ==> exits[i].vehicle != exits[j].vehicle)
    && (forall v :: v in left ==> exists i :: 0 <= i < |exits| && exits[i].vehicle == v)
    && (forall i :: 0 <= i < |exits| ==> exits[i].vehicle in left && RecordOk(exits[i], r))
    && |exits| == |left|
  }

  ghost predicate RecordOk(x: Exit, r: Rounding) {
    && x.trip.vehicleId == x.vehicle.id && x.trip.class_ == x.vehicle.class_
    && Abs(Sum(x.trip.segments) - (x.at - x.vehicle.spawnedAt)) <= r.Slack() * x.closed as real
    && EndsAt(x.vehicle.dest, x.route, x.hop, x.blocked)
  }

  /** A trip on `route` ended at position `hop`: nothing but intersections lies behind, and it is the end,
      a boundary node, or, after a block, the intersection one hop before the end. */
  ghost predicate EndsAt(dest: Node, route: Route, hop: nat, blocked: bool) {
    && IsPath(route) && route[|route| - 1] == dest && OnlyAtEnd(route, dest) && 0 < hop < |route|
    && (forall k :: 1 <= k < hop ==> IsIntersection(route[k]))
    && if blocked then hop == |route| - 2 && IsIntersection(route[hop])
       else hop == |route| - 1 || IsBoundary(route[hop])
  }

  /** Such a trip ends at its destination exactly when it was not blocked at the end and no boundary node
      lies inside the route. */
  lemma EndsAtDestinationIff(dest: Node, route: Route, hop: nat, blocked: bool)
    requires EndsAt(dest, route, hop, blocked)
    ensures route[hop] == dest <==> !blocked && InteriorIsIntersections(route)
  {
  }

  /** The spliced route meets its destination only at its end. */
  lemma SpliceEndsOnce(route: Route, i: nat, detour: Route, dest: Node)
    requires i + 1 < |route| && OnlyAtEnd(route, dest) && OnlyAtEnd(detour, dest) && |detour| > 1
    ensures OnlyAtEnd(route[..i + 1] + detour[1..], dest)
  {
  }

  lemma AppendExit(exits: seq<Exit>, left: set<Vehicle>, r: Rounding, x: Exit)
    requires ExitLog(exits, left, r) && x.vehicle !in left && RecordOk(x, r)
    ensures ExitLog(exits + [x], left + {x.vehicle}, r)
  {
    hide RecordOk;
    var all := exits + [x];
    forall v | v in left + {x.vehicle} ensures exists i :: 0 <= i < |all| && all[i].vehicle == v {
      if v in left {
        var i :| 0 <= i < |exits| && exits[i].vehicle == v;
        assert all[i].vehicle == v;
      } else {
        assert all[|exits|].vehicle == v;
      }
    }
    assert all[|exits|] == x;
  }

  lemma AppendKeepsLast(trips: seq<TripRecord>, exits: seq<Exit>, x: Exit)
    requires AreLast(trips, exits)
    ensures var t := trips + [x.trip];
            AreLast(if |t| > TRIP_LIMIT then t[|t| - TRIP_LIMIT..] else t, exits + [x])
  {
    var t := trips + [x.trip];
    var all := exits + [x];
    var shift := |all| - |t|;
    forall i | 0 <= i < |t| ensures t[i] == all[shift + i].trip {
      if i < |trips| {
        assert all[shift + i] == exits[shift + i];
      }
    }
    if |t| > TRIP_LIMIT {
      var cut := t[|t| - TRIP_LIMIT..];
      forall i | 0 <= i < |cut| ensures cut[i] == all[|all| - |cut| + i].trip {
        assert cut[i] == t[|t| - TRIP_LIMIT + i];
      }
    }
  }

  /** The approach by which edge `e` enters its node. */
  function ApproachOf(e: EdgeId): Direction {
    match Lookup(e.from, e.to) case Some(row) => row.toDir.GetOr(North) case None => North
  }

  function RightOnRedConflict(d: Direction): Direction {
    match d case North => East case East => South case South => West case West => North
  }

  predicate RightOnRedAllowed(n: Node) {
    n == A || n == C
  }

  /** The lane for entering from `entry` and leaving towards `exit`; U-turns keep the straight lane. */
  function MovementFor(entry: Direction, exit: Direction): Movement {
    match (entry, exit)
    case (North, East) => Left case (North, West) => Right
    case (South, West) => Left case (South, East) => Right
    case (East, North) => Left case (East, South) => Right
    case (West, South) => Left case (West, North) => Right
    case _ => Straight
  }

  /** The side on the right of a driver who enters from side `d` and faces the opposite one. */
  function RightHandSide(d: Direction): Direction {
    match d case North => West case East => North case South => East case West => South
  }

  /** The movement table calls the exit on the driver's right a right turn exactly for the north and
      south approaches; for east and west it swaps left and right. */
  lemma RightTurnsAreRightIff(d: Direction)
    ensures MovementFor(d, RightHandSide(d)).Right? <==> d.North? || d.South?
    ensures MovementFor(d, RightHandSide(d)).Left? <==> d.East? || d.West?
  {
  }

  /** One movement per exit: the straight lane is for the opposite side and for U-turns alone, and no two
      other exits share a lane. */
  lemma OneLanePerExit(d: Direction, x: Direction, y: Direction)
    ensures MovementFor(d, x).Straight? <==> SameRoad(d, x)
    ensures MovementFor(d, x) == MovementFor(d, y) && !SameRoad(d, x) ==> x == y
  {
  }

  /** Between intersections the straight lane is that of the vehicles that keep their heading, or turn back. */
  lemma StraightKeepsHeadingIff(a: Node, b: Node, c: Node)
    requires IsIntersection(a) && IsIntersection(b) && IsEdge(a, b) && IsEdge(b, c)
    ensures var (heading, next) := (Lookup(a, b).value.fromDir, Lookup(b, c).value.fromDir);
            heading.Some? && next.Some?
            && (MovementFor(ApproachOf(EdgeId(a, b)), next.value).Straight? <==> next == heading || c == a)
  {
  }

  /** The approach watched by right-on-red is the one from the left, whose straight traffic leaves where
      a right turn by geometry does.  Where the movement table calls the left exit a right turn the
      traffic that the turn joins comes from the other side, unwatched. */
  lemma WatchesJoinedTrafficIff(d: Direction, x: Direction)
    requires MovementFor(d, x).Right?
    ensures RightOnRedConflict(d) == Opposite(RightHandSide(d))
    ensures Opposite(RightOnRedConflict(d)) == x <==> d.North? || d.South?
    ensures RightOnRedConflict(d) == x <==> d.East? || d.West?
  {
  }

  const DIRECTION_SET: set<Direction> := {North, South, East, West}
  const LANE_SET: set<Movement> := {Straight, Left, Right}

  /** Every edge list and every lane list of the engine. */
  const ALL_PLACES: set<Place> :=
    (set a, b | a in EVERY_NODE && b in EVERY_NODE && IsEdge(a, b) :: OnEdge(EdgeId(a, b)))
    + (set n, d, l | n in EVERY_NODE && IsIntersection(n) && d in DIRECTION_SET && l in LANE_SET :: InLane(n, d, l))

  /** What the loops around the engine may ask of it, in any order. */
  datatype Request = Spawn | Tick(dt: real) | Scenario(w: Weather, blocked: map<Node, Direction>)

  /** The lanes in the order in which the node pass visits them: node, then direction, then lane. */
  function LanePlace(k: nat): (p: Place)
    requires k < 48
    ensures p.InLane?
  {
    InLane(INTERSECTIONS[k / 12], DIRECTIONS[k / 3 % 4], LANES[k % 3])
  }

  lemma EdgesDistinct(i: nat, j: nat)
    requires i < |EDGE_IDS| && j < |EDGE_IDS| && i != j
    ensures EDGE_IDS[i] != EDGE_IDS[j]
  {
  }

  /** The first position of an edge in the list, or its length. */
  function EdgeIndex(e: EdgeId, from: nat): (k: nat)
    requires from <= |EDGE_IDS|
    ensures from <= k <= |EDGE_IDS| && (k < |EDGE_IDS| ==> EDGE_IDS[k] == e)
    ensures forall j :: from <= j < k ==> EDGE_IDS[j] != e
    decreases |EDGE_IDS| - from
  {
    if from == |EDGE_IDS| || EDGE_IDS[from] == e then from else EdgeIndex(e, from + 1)
  }

  /** The list of edges misses none. */
  lemma EdgeListed(e: EdgeId)
    requires IsEdge(e.from, e.to)
    ensures exists k :: 0 <= k < |EDGE_IDS| && EDGE_IDS[k] == e
  {
    assert EDGE_IDS[0] == EdgeId(N1, A) && EDGE_IDS[1] == EdgeId(A, N1) && EDGE_IDS[2] == EdgeId(W1, A) && EDGE_IDS[3] == EdgeId(A, W1);
    assert EDGE_IDS[4] == EdgeId(A, B) && EDGE_IDS[5] == EdgeId(B, A) && EDGE_IDS[6] == EdgeId(A, C) && EDGE_IDS[7] == EdgeId(C, A);
    assert EDGE_IDS[8] == EdgeId(B, E1) && EDGE_IDS[9] == EdgeId(E1, B) && EDGE_IDS[10] == EdgeId(B, D) && EDGE_IDS[11] == EdgeId(D, B);
    assert EDGE_IDS[12] == EdgeId(C, D) && EDGE_IDS[13] == EdgeId(D, C) && EDGE_IDS[14] == EdgeId(B, S1) && EDGE_IDS[15] == EdgeId(S1, B);
    assert EDGE_IDS[16] == EdgeId(D, E1) && EDGE_IDS[17] == EdgeId(E1, D) && EDGE_IDS[18] == EdgeId(C, S1) && EDGE_IDS[19] == EdgeId(S1, C);
    assert EDGE_IDS[20] == EdgeId(D, E2) && EDGE_IDS[21] == EdgeId(E2, D);
  }

  function NodeRank(n: Node): nat { match n case A => 0 case B => 1 case C => 2 case _ => 3 }

  function DirRank(d: Direction): nat { match d case North => 0 case South => 1 case East => 2 case West => 3 }

  function LaneRank(m: Movement): nat { match m case Straight => 0 case Left => 1 case Right => 2 }

  function Rank(p: Place): nat
    requires p.InLane?
  {
    12 * NodeRank(p.node) + 3 * DirRank(p.dir) + LaneRank(p.lane)
  }

  lemma LanePlaceRank(k: nat)
    requires k < 48
    ensures Rank(LanePlace(k)) == k
  {
    assert NodeRank(INTERSECTIONS[k / 12]) == k / 12;
    assert DirRank(DIRECTIONS[k / 3 % 4]) == k / 3 % 4;
    assert LaneRank(LANES[k % 3]) == k % 3;
  }

  lemma RankPlace(p: Place)
    requires p.InLane? && IsIntersection(p.node)
    ensures Rank(p) < 48 && LanePlace(Rank(p)) == p
  {
    var k, n, d, l := Rank(p), NodeRank(p.node), DirRank(p.dir), LaneRank(p.lane);
    assert k / 3 == 4 * n + d && k % 3 == l;
    assert k / 12 == n && k / 3 % 4 == d;
    assert INTERSECTIONS[n] == p.node && DIRECTIONS[d] == p.dir && LANES[l] == p.lane;
  }

  class CityNetworkEngine {
    const rounding: Rounding
    var cells: map<Place, seq<Vehicle>>
    var clocks: map<Node, Clock>
    var incident: map<Node, Direction>
    var weather: Weather
    var simTime: real
    var trips: seq<TripRecord>
    var nextId: nat
    /** History: every vehicle ever spawned, every exit in order, and the vehicles that exited. */
    ghost var fleet: set<Vehicle>
    ghost var exits: seq<Exit>
    ghost var left: set<Vehicle>

    function At(p: Place): seq<Vehicle>
      reads this`cells
    {
      if p in cells then cells[p] else []
    }

    function ClockOf(n: Node): Clock
      reads this`clocks
    {
      if n in clocks then clocks[n] else Initial(0.0)
    }

    function ColorAt(n: Node, d: Direction): Color
      reads this`clocks
    {
      ColorOf(ClockOf(n).phase, d)
    }

    function EdgeCurrentPcu(e: EdgeId): real
      reads this`cells, At(OnEdge(e))`state
    {
      ActivePcu(At(OnEdge(e)))
    }

    predicate EdgeIsFull(e: EdgeId, threshold: real)
      reads this`cells, At(OnEdge(e))`state
    {
      EdgeCurrentPcu(e) >= EdgeMaxPcu(e) * threshold
    }

    /** The clock at the start of the green of the approach that edge `e` leads to. */
    static function Forced(c: Clock, e: EdgeId): Clock {
      ForceClock(c, GreenPhaseFor(ApproachOf(e)))
    }

    static lemma ForcedTwice(e: EdgeId, d: EdgeId)
      ensures forall c: Clock :: Forced(Forced(c, e), d) == Forced(c, d)
    {
    }

    /** The clock of `n` was forced to the start of the green of the approach that edge `e` leads to. */
    predicate ForcedAt(n: Node, before: Clock, e: EdgeId)
      reads this`clocks
    {
      e.to == n && ClockOf(n) == Forced(before, e)
    }

    /** Clocks change only by being forced for edge `e`, and only for a priority vehicle. */
    twostate predicate OnlyForcedFor(new e: EdgeId, new priority: bool)
      reads this`clocks
    {
      forall n: Node :: ClockOf(n) == old(ClockOf(n)) || (priority && ForcedAt(n, old(ClockOf(n)), e))
    }

    // ----- the invariant -----

    /** Every vehicle still in the network stands in exactly the list of its own place, once.
        Within a tick, the vehicles of `gone` have left the list `cur` but are still listed there. */
    ghost predicate Roster(cur: Place, gone: seq<Vehicle>)
      reads this`cells, this`fleet, fleet`place, fleet`state
    {
      && (forall p: Place, v: Vehicle :: v in At(p) ==>
            v in fleet && ((v.state != ExitedNetwork && v.place == p) || (p == cur && v in gone)))
      && (forall v :: v in fleet && v.state != ExitedNetwork ==> v in At(v.place))
      && (forall v :: v in gone ==> v in fleet && v in At(cur) && (v.state == ExitedNetwork || v.place != cur))
      && (forall p: Place :: NoDup(At(p)))
      && NoDup(gone)
    }

    /** Every vehicle's own invariant; only `mover` may be between two places. */
    ghost predicate FleetOk(mover: Vehicle?)
      reads this`fleet, this`simTime, fleet
    {
      forall v :: v in fleet ==> v.Core(simTime, rounding) && (v == mover || v.Settled())
    }

    /** The vehicles that left are exactly those marked as gone. */
    ghost predicate LeftOk()
      reads this`fleet, this`left, fleet`state
    {
      left <= fleet && forall v :: v in fleet ==> (v.state == ExitedNetwork <==> v in left)
    }

    /** No edge ever holds its capacity plus one largest vehicle. */
    ghost predicate LoadsOk()
      reads this`cells
    {
      forall e: EdgeId :: Load(At(OnEdge(e))) < EdgeMaxPcu(e) + MAX_PCU
    }

    ghost predicate LogOk()
      reads this`left, this`exits, this`trips
    {
      ExitLog(exits, left, rounding) && AreLast(trips, exits)
    }

    ghost predicate Inv(cur: Place, gone: seq<Vehicle>, mover: Vehicle?)
      reads this`cells, this`fleet, this`simTime, this`left, this`exits, this`trips, fleet
    {
      Roster(cur, gone) && FleetOk(mover) && LeftOk() && LogOk() && LoadsOk()
    }

    ghost predicate Valid()
      reads this, fleet
    {
      Inv(OnEdge(EDGE_IDS[0]), [], null)
    }

    constructor (rounding: Rounding)
      ensures Valid() && cells == map[] && fleet == {} && exits == [] && trips == [] && simTime == 0.0
      ensures this.rounding == rounding
    {
      this.rounding := rounding;
      cells, incident, weather, simTime, trips, nextId := map[], map[], Sunny, 0.0, [], 0;
      clocks := map[A := Initial(0.0), B := Initial(15.0), C := Initial(12.0), D := Initial(25.0)];
      fleet, exits, left := {}, [], {};
      new;
      assert forall p: Place :: At(p) == [];
    }

    // ----- leaving the network -----

    /** Marks `v` as gone and appends its trip record, keeping the last 2000. */
    method RecordTrip(v: Vehicle, ghost hop: nat, ghost blocked: bool)
      requires v in fleet && v !in left && LeftOk() && LogOk() && EndsAt(v.dest, v.route, hop, blocked)
      requires v.TimesAddUp(simTime, rounding) && v.segEnter == simTime
      modifies this`trips, this`exits, this`left, v`state
      ensures v.state == ExitedNetwork && left == old(left) + {v} && LeftOk() && LogOk()
      ensures exits == old(exits) + [Exit(v, TripRecord(v.id, v.class_, v.segments), simTime, v.closed, v.route, hop, blocked)]
    {
      hide ExitLog, AreLast, Sum, EndsAt;
      v.state := ExitedNetwork;
      var record := TripRecord(v.id, v.class_, v.segments);
      ghost var x := Exit(v, record, simTime, v.closed, v.route, hop, blocked);
      AppendKeepsLast(trips, exits, x);
      AppendExit(exits, left, rounding, x);
      trips := trips + [record];
      exits := exits + [x];
      left := left + {v};
      if |trips| > TRIP_LIMIT {
        trips := trips[|trips| - TRIP_LIMIT..];
      }
    }

    // ----- what one change of one vehicle does to the invariant -----

    /** What the invariant says about one listed vehicle. */
    lemma Listed(cur: Place, gone: seq<Vehicle>, mover: Vehicle?, p: Place, v: Vehicle)
      requires Inv(cur, gone, mover) && v in At(p) && (p == cur ==> v !in gone)
      ensures v in fleet && v !in left && v.state != ExitedNetwork && v.place == p
      ensures v.vFree >= 10.0 && v.position >= 0.0 && v.RouteOk() && v.Travelled() && v.TimesAddUp(simTime, rounding)
      ensures v != mover ==> v.SettledAt(p, v.state, v.position)
    {
    }

    lemma NoneExited(cur: Place, gone: seq<Vehicle>, p: Place)
      requires Roster(cur, gone) && p != cur
      ensures ActivePcu(At(p)) == Load(At(p))
    {
      AllActive(At(p));
    }

    twostate predicate OnlyPlaceOrState(v: Vehicle)
      reads this`fleet, fleet`place, fleet`state
    {
      && fleet == old(fleet) && v in fleet
      && forall u :: u in fleet && u != v ==> u.place == old(u.place) && u.state == old(u.state)
    }

    /** `v` leaves `cur` for the list of `q`; it stays listed at `cur` until the end of the pass. */
    twostate lemma Moved(new cur: Place, new gone: seq<Vehicle>, v: Vehicle, new q: Place)
      requires old(allocated(gone)) && old(Roster(cur, gone)) && OnlyPlaceOrState(v)
      requires v in old(At(cur)) && v !in gone && q != cur
      requires cells == old(cells)[q := old(At(q)) + [v]]
      requires v.place == q && v.state != ExitedNetwork
      ensures Roster(cur, gone + [v])
    {
      assert v.place == q && old(v.place) == cur;
      assert v !in old(At(q));
      assert forall p: Place :: p != q ==> At(p) == old(At(p));
      assert At(q) == old(At(q)) + [v];
    }

    /** `v` leaves the network from `cur`. */
    twostate lemma Exited(new cur: Place, new gone: seq<Vehicle>, v: Vehicle)
      requires old(allocated(gone)) && old(Roster(cur, gone)) && OnlyPlaceOrState(v)
      requires v in old(At(cur)) && v !in gone && cells == old(cells) && v.state == ExitedNetwork
      ensures Roster(cur, gone + [v])
    {
    }

    /** `v` changes state but not place. */
    twostate lemma Stayed(new cur: Place, new gone: seq<Vehicle>, v: Vehicle)
      requires old(allocated(gone)) && old(Roster(cur, gone)) && OnlyPlaceOrState(v)
      requires v in old(At(cur)) && v !in gone && cells == old(cells)
      requires v.place == old(v.place) && v.state != ExitedNetwork
      ensures Roster(cur, gone)
    {
    }

    /** Only `v` changed; before and after, `v` may be between two places. */
    twostate lemma FleetStep(v: Vehicle, new mover: Vehicle?)
      requires old(FleetOk(v)) && fleet == old(fleet) && simTime == old(simTime) && v in fleet
      requires forall u :: u in fleet && u != v ==> unchanged(u)
      requires v.Core(simTime, rounding) && (v == mover || v.Settled())
      ensures FleetOk(mover)
    {
      hide Vehicle.Core, Vehicle.Settled;
      forall u | u in fleet ensures u.Core(simTime, rounding) && (u == mover || u.Settled()) {
        if u != v {
          assert old(u.Core(simTime, rounding)) && old(u.Settled());
        }
      }
    }

    twostate lemma LeftStep(v: Vehicle)
      requires old(LeftOk()) && OnlyPlaceOrState(v) && left == old(left)
      requires (v.state == ExitedNetwork) == old(v.state == ExitedNetwork)
      ensures LeftOk()
    {
    }

    twostate lemma LoadsGrow(v: Vehicle, new q: Place)
      requires old(LoadsOk()) && cells == old(cells)[q := old(At(q)) + [v]]
      requires q.OnEdge? ==> Load(old(At(q))) < EdgeMaxPcu(q.edge)
      ensures LoadsOk()
    {
      LoadAppend(old(At(q)), v);
      forall e: EdgeId ensures Load(At(OnEdge(e))) < EdgeMaxPcu(e) + MAX_PCU {
        if OnEdge(e) != q {
          assert At(OnEdge(e)) == old(At(OnEdge(e)));
        }
      }
    }

    // ----- the three ways a vehicle changes place -----

    /** `v` leaves the network from the list `cur`. */
    method LeaveNetwork(v: Vehicle, cur: Place, ghost gone: seq<Vehicle>, ghost hop: nat, ghost blocked: bool)
      requires Inv(cur, gone, v) && v in At(cur) && v !in gone && EndsAt(v.dest, v.route, hop, blocked)
      modifies this`trips, this`exits, this`left, v`state, v`segments, v`segEnter, v`closed
      ensures Inv(cur, gone + [v], null)
      ensures v.state == ExitedNetwork && |exits| == |old(exits)| + 1 && old(exits) <= exits && v.segEnter == simTime
      ensures exits[|old(exits)|].vehicle == v && exits[|old(exits)|].at == simTime
      ensures var x := exits[|old(exits)|]; x.route == v.route && x.hop == hop && x.blocked == blocked
      ensures v.segments == old(v.segments)[ContextOf(v.place) := old(v.TimeUpTo(simTime, rounding))]
    {
      hide Roster, FleetOk, LeftOk, LogOk, LoadsOk, EndsAt, Vehicle.RouteOk, Vehicle.Travelled, Vehicle.TimesAddUp;
      Listed(cur, gone, v, cur, v);
      v.CloseSegment(simTime, rounding);
      RecordTrip(v, hop, blocked);
      Exited(cur, gone, v);
      FleetStep(v, null);
    }

    /** `v` stays listed at `cur`, stopped in state `st` at `position`. */
    method StopAt(v: Vehicle, cur: Place, st: VehicleState, position: real, ghost gone: seq<Vehicle>)
      requires Inv(cur, gone, v) && v in At(cur) && v !in gone && v.place == cur
      requires st != ExitedNetwork && position >= 0.0 && v.SettledAt(cur, st, position)
      modifies v`state, v`position
      ensures Inv(cur, gone, null) && v.state == st && v.position == position
    {
      hide Roster, FleetOk, LeftOk, LogOk, LoadsOk, EndsAt, Vehicle.RouteOk, Vehicle.Travelled, Vehicle.TimesAddUp;
      Listed(cur, gone, v, cur, v);
      v.state := st;
      v.position := position;
      Stayed(cur, gone, v);
      FleetStep(v, null);
      LeftStep(v);
    }

    /** `v` goes from `cur` to the list of `q`, at its start. */
    method MoveTo(v: Vehicle, cur: Place, q: Place, st: VehicleState, ghost gone: seq<Vehicle>)
      requires Inv(cur, gone, v) && v in At(cur) && v !in gone && q != cur
      requires st != ExitedNetwork && v.SettledAt(q, st, 0.0)
      requires q.OnEdge? ==> Load(At(q)) < EdgeMaxPcu(q.edge)
      modifies this`cells, v`place, v`state, v`position
      ensures Inv(cur, gone + [v], null)
      ensures v.place == q && v.state == st && v.position == 0.0
      ensures cells == old(cells)[q := old(At(q)) + [v]]
    {
      hide Roster, FleetOk, LeftOk, LogOk, LoadsOk, EndsAt, Vehicle.RouteOk, Vehicle.Travelled, Vehicle.TimesAddUp;
      Listed(cur, gone, v, cur, v);
      v.place := q;
      v.state := st;
      v.position := 0.0;
      cells := cells[q := At(q) + [v]];
      Moved(cur, gone, v, q);
      FleetStep(v, null);
      LeftStep(v);
      LoadsGrow(v, q);
    }

    /** `_close_segment` on a vehicle being moved. */
    method Close(v: Vehicle, cur: Place, ghost gone: seq<Vehicle>)
      requires Inv(cur, gone, v) && v in At(cur) && v !in gone
      modifies v`segments, v`segEnter, v`closed
      ensures Inv(cur, gone, v) && v.segEnter == simTime
      ensures v.segments == old(v.segments)[ContextOf(v.place) := old(v.TimeUpTo(simTime, rounding))]
    {
      hide Roster, FleetOk, LeftOk, LogOk, LoadsOk, EndsAt, Vehicle.RouteOk, Vehicle.Travelled, Vehicle.TimesAddUp;
      Listed(cur, gone, v, cur, v);
      v.CloseSegment(simTime, rounding);
      FleetStep(v, v);
    }

    // ----- from an edge into a node, or out of the network -----

    /** `_handle_edge_arrival`: `v` has reached the end of edge `e`.  True when it has left the edge;
        false when the box rule keeps it there. */
    method HandleEdgeArrival(v: Vehicle, e: EdgeId, ghost gone: seq<Vehicle>) returns (leaves: bool)
      requires Inv(OnEdge(e), gone, v) && v in At(OnEdge(e)) && v !in gone && v.Located()
      modifies this`cells, this`trips, this`exits, this`left, this`clocks
      modifies v`place, v`state, v`position, v`segments, v`segEnter, v`closed
      ensures Inv(OnEdge(e), if leaves then gone + [v] else gone, null)
      ensures At(OnEdge(e)) == old(At(OnEdge(e)))
      ensures leaves <==> !IsIntersection(e.to) || !old(BoxBlocked(v, e))
      ensures !leaves ==> v.state == BlockedAtEntry && v.position == EdgeLength(e) - 0.01
                          && v.place == OnEdge(e) && cells == old(cells) && v.segments == old(v.segments)
      ensures !IsIntersection(e.to) ==>
                v.state == ExitedNetwork && v.place == OnEdge(e) && |exits| == |old(exits)| + 1 && old(exits) <= exits
                && exits[|old(exits)|].vehicle == v && exits[|old(exits)|].at == simTime && cells == old(cells)
                && exits[|old(exits)|].route == v.route && exits[|old(exits)|].hop == v.index + 1 && !exits[|old(exits)|].blocked
      ensures IsIntersection(e.to) ==> exits == old(exits)
      ensures OnlyForcedFor(e, v.priority)
      ensures leaves ==> v.segments == old(v.segments)[EdgeCtx(e) := old(v.TimeUpTo(simTime, rounding))] && v.segEnter == simTime
      ensures leaves && IsIntersection(e.to) ==>
                v.state == Moving && v.position == 0.0 && v.place == old(EntryPlace(v, e))
                && cells == old(cells)[v.place := old(At(EntryPlace(v, e))) + [v]]
                && (v.priority ==> ColorAt(e.to, v.place.dir) == Green)
    {
      hide Inv, Lookup, IsPath, ActivePcu, Vehicle.TimeUpTo, EntryPlace, BoxBlocked, ForcedAt, ClockOf, ColorAt;
      Listed(OnEdge(e), gone, v, OnEdge(e), v);
      EntryFacts(v, e);
      if !IsIntersection(e.to) {
        LeaveNetwork(v, OnEdge(e), gone, v.index + 1, false);
        leaves := true;
      } else if BoxBlocked(v, e) {
        StopAt(v, OnEdge(e), BlockedAtEntry, EdgeLength(e) - 0.01, gone);
        leaves := false;
      } else {
        EnterNode(v, e, gone);
        leaves := true;
      }
    }

    /** Into the lane of its movement, a priority vehicle turning its own approach green. */
    method EnterNode(v: Vehicle, e: EdgeId, ghost gone: seq<Vehicle>)
      requires Inv(OnEdge(e), gone, v) && v in At(OnEdge(e)) && v !in gone && v.Located() && IsIntersection(e.to)
      modifies this`cells, this`clocks, v`place, v`state, v`position, v`segments, v`segEnter, v`closed
      ensures Inv(OnEdge(e), gone + [v], null) && OnlyForcedFor(e, v.priority)
      ensures v.segments == old(v.segments)[EdgeCtx(e) := old(v.TimeUpTo(simTime, rounding))] && v.segEnter == simTime
      ensures v.state == Moving && v.position == 0.0 && v.place == old(EntryPlace(v, e)) && v.place.InLane?
      ensures cells == old(cells)[v.place := old(At(EntryPlace(v, e))) + [v]]
      ensures v.priority ==> ColorAt(e.to, v.place.dir) == Green
    {
      hide Inv, Lookup, IsPath, Vehicle.TimeUpTo, PredictedExitEdge;
      Listed(OnEdge(e), gone, v, OnEdge(e), v);
      EntryFacts(v, e);
      var q := EntryPlace(v, e);
      Close(v, OnEdge(e), gone);
      MoveTo(v, OnEdge(e), q, Moving, gone);
      if v.priority {
        ForcePhase(e.to, GreenPhaseFor(q.dir), OnEdge(e), gone + [v]);
      }
    }

    method ForcePhase(n: Node, p: Phase, ghost cur: Place, ghost gone: seq<Vehicle>)
      requires Inv(cur, gone, null)
      modifies this`clocks
      ensures Inv(cur, gone, null) && clocks == old(clocks)[n := ForceClock(old(ClockOf(n)), p)]
    {
      hide Roster, FleetOk, LeftOk, LogOk, LoadsOk;
      clocks := clocks[n := ForceClock(ClockOf(n), p)];
    }

    /** The edge the route takes out of node `n`, for a vehicle still on the way in. */
    function PredictedExitEdge(v: Vehicle, n: Node): Option<EdgeId>
      reads v
    {
      if v.index + 2 >= |v.route| || !IsEdge(n, v.route[v.index + 2]) then None
      else Some(EdgeId(n, v.route[v.index + 2]))
    }

    /** Box rule: the predicted exit edge is at 85 % of its capacity. */
    predicate BoxBlocked(v: Vehicle, e: EdgeId)
      reads v, this`cells, if PredictedExitEdge(v, e.to).Some? then At(OnEdge(PredictedExitEdge(v, e.to).value)) else []
    {
      var x := PredictedExitEdge(v, e.to);
      x.Some? && EdgeIsFull(x.value, BOX_THRESHOLD)
    }

    /** The approach and lane in which a vehicle enters the node at the end of `e`. */
    function EntryPlace(v: Vehicle, e: EdgeId): Place
      reads v
    {
      var dir := ApproachOf(e);
      var lane := match PredictedExitEdge(v, e.to)
        case None => Straight
        case Some(x) =>
          (match Lookup(x.from, x.to) case None => Straight
                                      case Some(row) => if row.fromDir.Some? then MovementFor(dir, row.fromDir.value) else Straight);
      InLane(e.to, dir, lane)
    }

    /** A vehicle enters on the side where its edge does, in the straight lane exactly when it goes on to the
        other end of that road, turns back, or goes no further. */
    lemma EntryPlaceMeans(v: Vehicle, e: EdgeId)
      requires IsEdge(e.from, e.to) && IsIntersection(e.to) && (v.index + 2 < |v.route| ==> IsEdge(e.to, v.route[v.index + 2]))
      ensures var (p, side) := (EntryPlace(v, e), Lookup(e.from, e.to).value.toDir);
              && p.InLane? && p.node == e.to && side == Some(p.dir)
              && (p.lane.Straight? <==>
                    v.index + 2 >= |v.route|
                    || Lookup(e.to, v.route[v.index + 2]).value.fromDir in {side, Some(Opposite(p.dir))})
    {
      EdgeTableShape(e.from, e.to);
      if v.index + 2 < |v.route| {
        EdgeTableShape(e.to, v.route[v.index + 2]);
      }
    }

    lemma EntryFacts(v: Vehicle, e: EdgeId)
      requires v.RouteOk() && v.Located() && v.place == OnEdge(e)
      ensures IsEdge(e.from, e.to) && EdgeLength(e) >= 200.0
      ensures v.SettledAt(OnEdge(e), BlockedAtEntry, EdgeLength(e) - 0.01)
      ensures IsIntersection(e.to) ==> v.SettledAt(EntryPlace(v, e), Moving, 0.0)
    {
      EdgeTableShape(e.from, e.to);
    }

    // ----- from a node onto an edge, or out of the network -----

    /** PCU in all lanes of a node. */
    predicate DensityHigh(n: Node)
      reads this`cells, NodeVehicles(n)`state
    {
      ActivePcu(NodeVehicles(n)) >= HIGH_DENSITY
    }

    /** The same by list alone, when nobody in the node's lanes is gone. */
    ghost predicate Dense(n: Node)
      reads this`cells
    {
      Load(NodeVehicles(n)) >= HIGH_DENSITY
    }

    lemma DenseIsHigh(cur: Place, gone: seq<Vehicle>, mover: Vehicle?, n: Node)
      requires Inv(cur, gone, mover) && cur.InLane? && cur.node != n
      ensures DensityHigh(n) == Dense(n)
    {
      hide Inv, Load, ActivePcu, NodeVehicles;
      forall v | v in NodeVehicles(n) ensures v.state != ExitedNetwork {
        var d, l := InSomeLane(n, v);
        Listed(cur, gone, mover, InLane(n, d, l), v);
      }
      AllActive(NodeVehicles(n));
    }

    lemma InSomeLane(n: Node, v: Vehicle) returns (d: Direction, l: Movement)
      requires v in NodeVehicles(n)
      ensures v in At(InLane(n, d, l))
    {
      hide At;
      d := if v in Approach(n, North) then North else if v in Approach(n, South) then South else if v in Approach(n, East) then East else West;
      l := if v in At(InLane(n, d, Straight)) then Straight else if v in At(InLane(n, d, Left)) then Left else Right;
    }

    lemma AheadIs(v: Vehicle, cur: Place, gone: seq<Vehicle>)
      requires Inv(cur, gone, v) && v in At(cur) && v !in gone && v.index + 1 < |v.route|
      ensures v.route[v.index] != v.route[v.index + 1]
    {
      hide Roster, LeftOk, LogOk, LoadsOk;
      Listed(cur, gone, v, cur, v);
      EdgeTableShape(v.route[v.index], v.route[v.index + 1]);
    }

    function NodeVehicles(n: Node): seq<Vehicle>
      reads this`cells
    {
      Approach(n, North) + Approach(n, South) + Approach(n, East) + Approach(n, West)
    }

    function Approach(n: Node, d: Direction): seq<Vehicle>
      reads this`cells
    {
      At(InLane(n, d, Straight)) + At(InLane(n, d, Left)) + At(InLane(n, d, Right))
    }

    /** What counts as being in a node: each vehicle in one of its lanes, once, and nobody else. */
    lemma NodeVehiclesAre(n: Node)
      requires Valid() && IsIntersection(n)
      ensures NoDup(NodeVehicles(n))
      ensures forall v :: v in NodeVehicles(n) <==> v in fleet && v.state != ExitedNetwork && v.place.InLane? && v.place.node == n
    {
      hide At, NoDup, FleetOk, LogOk, LoadsOk;
      ApproachIs(n, North);
      ApproachIs(n, South);
      ApproachIs(n, East);
      ApproachIs(n, West);
      NoDupBoth(Approach(n, North), Approach(n, South));
      NoDupBoth(Approach(n, North) + Approach(n, South), Approach(n, East));
      NoDupBoth(Approach(n, North) + Approach(n, South) + Approach(n, East), Approach(n, West));
    }

    lemma ApproachIs(n: Node, d: Direction)
      requires Valid()
      ensures NoDup(Approach(n, d))
      ensures forall v :: v in Approach(n, d) <==> v in fleet && v.state != ExitedNetwork && v.place.InLane? && v.place.node == n && v.place.dir == d
    {
      hide Inv, NoDup;
      var s, l, r := At(InLane(n, d, Straight)), At(InLane(n, d, Left)), At(InLane(n, d, Right));
      LaneIs(InLane(n, d, Straight));
      LaneIs(InLane(n, d, Left));
      LaneIs(InLane(n, d, Right));
      forall v | v in s ensures v.place.lane.Straight? && v !in l && v !in r {
        assert v.place == InLane(n, d, Straight);
      }
      forall v | v in l ensures v !in r {
        assert v.place == InLane(n, d, Left);
      }
      NoDupBoth(s, l);
      NoDupBoth(s + l, r);
      forall v | v in fleet && v.state != ExitedNetwork && v.place.InLane? && v.place.node == n && v.place.dir == d
        ensures v in s + l + r
      {
        InOwnList(v);
        match v.place.lane
        case Straight => assert v in s;
        case Left => assert v in l;
        case Right => assert v in r;
      }
      assert forall v :: v in s + l + r <==> v in s || v in l || v in r;
    }

    lemma LaneIs(p: Place)
      requires Valid()
      ensures NoDup(At(p)) && forall v :: v in At(p) <==> v in fleet && v.state != ExitedNetwork && v.place == p
    {
      hide FleetOk, LeftOk, LogOk, LoadsOk;
    }

    /** The route with its rest replaced by the way around its next node. */
    static function Rerouted(route: Route, i: nat, n: Node): Route
      requires i + 1 < |route|
    {
      var detour := ComputeRouteAvoiding(n, route[|route| - 1], route[i + 1]);
      route[..i + 1] + if detour == [] then [] else detour[1..]
    }

    static lemma ReroutedIs(route: Route, i: nat, n: Node, detour: Route)
      requires i + 1 < |route| && detour == ComputeRouteAvoiding(n, route[|route| - 1], route[i + 1])
      ensures |detour| > 1 ==> Rerouted(route, i, n) == route[..i + 1] + detour[1..]
    {
      hide ComputeRouteAvoiding;
    }

    /** Two reroutes can lead through a boundary node: from N1 to E1, around B at A and then around D at C. */
    static lemma RerouteThroughBoundary()
      ensures ComputeRoute(N1, E1) == [N1, A, B, E1]
      ensures Rerouted([N1, A, B, E1], 1, A) == [N1, A, C, D, E1]
      ensures Rerouted([N1, A, C, D, E1], 2, C) == [N1, A, C, S1, B, E1]
      ensures !InteriorIsIntersections([N1, A, C, S1, B, E1])
    {
      FromN1ToE1();
      FromAAroundB();
      ReroutedIs([N1, A, B, E1], 1, A, [A, C, D, E1]);
      FromCAroundD();
      ReroutedIs([N1, A, C, D, E1], 2, C, [C, S1, B, E1]);
      assert IsBoundary([N1, A, C, S1, B, E1][3]);
    }

    /** `_maybe_reroute` at node `n`: the random draw is any value. */
    method MaybeReroute(v: Vehicle, n: Node, cur: Place, ghost gone: seq<Vehicle>)
      requires Inv(cur, gone, v) && v in At(cur) && v !in gone
      requires v.index + 1 < |v.route| && v.route[v.index] == n && cur.InLane? && cur.node == n
      modifies v`route
      ensures Inv(cur, gone, v)
      ensures v.index + 1 < |v.route| && v.route[..v.index + 1] == old(v.route[..v.index + 1])
      ensures v.route[v.index] == n
      ensures v.route != old(v.route) ==>
                && old(Dense(v.route[v.index + 1])) && v.route[v.index + 1] != old(v.route[v.index + 1])
                && v.route == Rerouted(old(v.route), v.index, n)
    {
      hide Inv, Lookup, ActivePcu, IsPath, ComputeRouteAvoiding, Rerouted, DensityHigh, Dense;
      var next := v.route[v.index + 1];
      if !IsIntersection(next) {
        return;
      }
      var lucky: bool := *;
      if DensityHigh(next) && lucky {
        var dest := v.route[|v.route| - 1];
        var detour := ComputeRouteAvoiding(n, dest, next);
        ComputeRouteAvoidingConnects(n, dest, next);
        ComputeRouteAvoidingEndsOnce(n, dest, next);
        ReroutedIs(v.route, v.index, n, detour);
        AheadIs(v, cur, gone);
        DenseIsHigh(cur, gone, v, next);
        if |detour| > 1 && detour[1] != next {
          Divert(v, detour, cur, gone);
        }
      }
    }

    method Divert(v: Vehicle, detour: Route, cur: Place, ghost gone: seq<Vehicle>)
      requires Inv(cur, gone, v) && v in At(cur) && v !in gone && v.index < |v.route| && |detour| > 1
      requires Connects(detour, v.route[v.index], v.route[|v.route| - 1]) && OnlyAtEnd(detour, v.route[|v.route| - 1])
      modifies v`route
      ensures Inv(cur, gone, v)
      ensures v.index + 1 < |v.route| && v.route[..v.index + 1] == old(v.route[..v.index + 1])
      ensures v.route[v.index] == old(v.route[v.index])
      ensures v.route[v.index + 1] == detour[1] && v.route[|v.route| - 1] == old(v.route[|v.route| - 1])
      ensures v.route == old(v.route[..v.index + 1]) + detour[1..]
    {
      hide Roster, FleetOk, LeftOk, LogOk, LoadsOk, Vehicle.TimesAddUp, IsPath;
      Listed(cur, gone, v, cur, v);
      SpliceRoute(v.route, v.index, detour);
      SpliceEndsOnce(v.route, v.index, detour, v.dest);
      v.route := v.route[..v.index + 1] + detour[1..];
      FleetStep(v, v);
    }

    method Bump(v: Vehicle, cur: Place, ghost gone: seq<Vehicle>)
      requires Inv(cur, gone, v) && v in At(cur) && v !in gone
      requires v.index + 1 < |v.route| - 1 ==> IsIntersection(v.route[v.index + 1])
      modifies v`index
      ensures Inv(cur, gone, v) && v.index == old(v.index) + 1
    {
      hide Roster, FleetOk, LeftOk, LogOk, LoadsOk, EndsAt, Vehicle.RouteOk, Vehicle.TimesAddUp;
      Listed(cur, gone, v, cur, v);
      v.index := v.index + 1;
      FleetStep(v, v);
    }

    /** `_handle_intersection_exit`: `v` has reached the exit point of the node of lane `p`, or
        retries there.  True when it has left the node; false when the next edge is full. */
    method HandleIntersectionExit(v: Vehicle, p: Place, ghost gone: seq<Vehicle>) returns (leaves: bool)
      requires p.InLane? && Inv(p, gone, v) && v in At(p) && v !in gone && v.Located()
      modifies this`cells, this`trips, this`exits, this`left
      modifies v`place, v`state, v`position, v`segments, v`segEnter, v`closed, v`route, v`index
      ensures Inv(p, if leaves then gone + [v] else gone, null)
      ensures At(p) == old(At(p))
      ensures old(v.index + 1 >= |v.route| - 1) ==>
                leaves && v.state == ExitedNetwork && v.place == p && cells == old(cells) && old(exits) < exits
                && |exits| == |old(exits)| + 1 && exits[|old(exits)|].vehicle == v && exits[|old(exits)|].at == simTime
                && exits[|old(exits)|].route == old(v.route) && exits[|old(exits)|].blocked == (old(v.state) == BlockedAtExit)
                && exits[|old(exits)|].hop == (if old(v.state) == BlockedAtExit then old(v.index) else old(v.index) + 1)
                && v.segments == old(v.segments)[NodeCtx(p.node) := old(v.TimeUpTo(simTime, rounding))]
      ensures old(v.index + 1 < |v.route| - 1) ==>
                && exits == old(exits) && v.index + 1 < |v.route|
                && v.index == old(v.index) + (if old(v.state) == BlockedAtExit then 0 else 1)
                && v.route[..v.index + 1] == old(v.route)[..v.index + 1] && v.route[v.index] == p.node
                && (if old(v.state) == BlockedAtExit
                    then v.route == old(v.route) && v.segments == old(v.segments) && v.segEnter == old(v.segEnter)
                    else v.segments == old(v.segments)[NodeCtx(p.node) := old(v.TimeUpTo(simTime, rounding))] && v.segEnter == simTime)
      ensures old(v.index + 1 < |v.route| - 1) && v.route != old(v.route) ==>
                && old(Dense(v.route[v.index + 2])) && v.route[v.index + 1] != old(v.route)[v.index + 1]
                && v.route == Rerouted(old(v.route), v.index, p.node)
      ensures old(v.index + 1 < |v.route| - 1) ==>
                var e := NextEdge(p.node, v.route[v.index + 1]);
                && leaves == !old(EdgeIsFull(e, 1.0))
                && (leaves ==> v.place == OnEdge(e) && v.state == Transit && v.position == 0.0
                               && cells == old(cells)[OnEdge(e) := old(At(OnEdge(e))) + [v]])
                && (!leaves ==> v.state == BlockedAtExit && v.position == EXIT_POINT - 0.01
                                && v.place == p && cells == old(cells))
    {
      hide Inv, Lookup, IsPath, ActivePcu, Vehicle.TimeUpTo, Rerouted, Dense;
      Listed(p, gone, v, p, v);
      if v.index + 1 >= |v.route| - 1 {
        ghost var blocked := v.state == BlockedAtExit;
        TripEnd(v, p);
        ghost var hop := if blocked then v.index else v.index + 1;
        Bump(v, p, gone);
        LeaveNetwork(v, p, gone, hop, blocked);
        leaves := true;
      } else {
        if v.state != BlockedAtExit {
          FinishNode(v, p, gone);
        }
        leaves := TryDepart(v, p, gone);
      }
    }

    lemma TripEnd(v: Vehicle, p: Place)
      requires p.InLane? && v.RouteOk() && v.Travelled() && v.LocatedAt(p, v.state) && v.index + 1 >= |v.route| - 1
      ensures EndsAt(v.dest, v.route, if v.state == BlockedAtExit then v.index else v.index + 1, v.state == BlockedAtExit)
    {
    }

    /** First arrival at the exit point: close the node's segment, advance, maybe reroute. */
    method FinishNode(v: Vehicle, p: Place, ghost gone: seq<Vehicle>)
      requires p.InLane? && Inv(p, gone, v) && v in At(p) && v !in gone
      requires v.index + 1 < |v.route| - 1 && v.route[v.index + 1] == p.node && IsIntersection(p.node)
      modifies v`segments, v`segEnter, v`closed, v`index, v`route
      ensures Inv(p, gone, v) && v.index == old(v.index) + 1 && v.segEnter == simTime
      ensures v.index + 1 < |v.route| && v.route[v.index] == p.node
      ensures v.route[..v.index + 1] == old(v.route)[..v.index + 1]
      ensures v.route != old(v.route) ==>
                && old(Dense(v.route[v.index + 2])) && v.route[v.index + 1] != old(v.route)[v.index + 1]
                && v.route == Rerouted(old(v.route), v.index, p.node)
      ensures v.segments == old(v.segments)[ContextOf(v.place) := old(v.TimeUpTo(simTime, rounding))]
    {
      hide Inv, Lookup, IsPath, ActivePcu, ContextOf, Rerouted, Dense, Vehicle.TimeUpTo;
      Close(v, p, gone);
      Bump(v, p, gone);
      MaybeReroute(v, p.node, p, gone);
    }

    method TryDepart(v: Vehicle, p: Place, ghost gone: seq<Vehicle>) returns (leaves: bool)
      requires p.InLane? && IsIntersection(p.node) && Inv(p, gone, v) && v in At(p) && v !in gone
      requires 0 < v.index && v.index + 1 < |v.route| && v.route[v.index] == p.node
      modifies this`cells, v`place, v`state, v`position
      ensures Inv(p, if leaves then gone + [v] else gone, null)
      ensures leaves == !old(EdgeIsFull(NextEdge(p.node, v.route[v.index + 1]), 1.0))
      ensures var q := OnEdge(NextEdge(p.node, v.route[v.index + 1]));
              if leaves then v.place == q && v.state == Transit && v.position == 0.0
                             && cells == old(cells)[q := old(At(q)) + [v]]
              else v.state == BlockedAtExit && v.position == EXIT_POINT - 0.01 && v.place == p && cells == old(cells)
    {
      hide Roster, FleetOk, LeftOk, LogOk, LoadsOk, ActivePcu, Vehicle.TimesAddUp, Lookup;
      Listed(p, gone, v, p, v);
      var e := NextEdge(p.node, v.route[v.index + 1]);
      DepartFacts(v, p);
      NoneExited(p, gone, OnEdge(e));
      if EdgeIsFull(e, 1.0) {
        StopAt(v, p, BlockedAtExit, EXIT_POINT - 0.01, gone);
        leaves := false;
      } else {
        MoveTo(v, p, OnEdge(e), Transit, gone);
        leaves := true;
      }
    }

    function NextEdge(n: Node, next: Node): EdgeId {
      EdgeId(n, next)
    }

    lemma DepartFacts(v: Vehicle, p: Place)
      requires v.RouteOk() && p.InLane? && IsIntersection(p.node)
      requires 0 < v.index && v.index + 1 < |v.route| && v.route[v.index] == p.node
      ensures var e := NextEdge(p.node, v.route[v.index + 1]);
              IsEdge(e.from, e.to) && v.SettledAt(OnEdge(e), Transit, 0.0)
              && v.SettledAt(p, BlockedAtExit, EXIT_POINT - 0.01)
    {
      EdgeTableShape(v.route[v.index], v.route[v.index + 1]);
    }

    // ----- whole-list steps -----

    lemma Loosen(cur: Place, gone: seq<Vehicle>, v: Vehicle)
      requires Inv(cur, gone, null)
      ensures Inv(cur, gone, v)
    {
      hide Vehicle.Core, Vehicle.Settled;
    }

    /** With nobody on the way out, it does not matter which list is being worked on. */
    lemma AnyList(cur: Place, other: Place)
      requires Inv(cur, [], null)
      ensures Inv(other, [], null)
    {
      hide FleetOk, LeftOk, LogOk, LoadsOk;
    }

    /** `v` moved within its place; it is still somewhere in the network. */
    twostate lemma MovedWithin(v: Vehicle, new cur: Place, new gone: seq<Vehicle>, new mover: Vehicle?)
      requires old(allocated(gone)) && old(Inv(cur, gone, v)) && v in old(At(cur)) && v !in gone
      requires fleet == old(fleet) && simTime == old(simTime) && cells == old(cells) && left == old(left)
      requires exits == old(exits) && trips == old(trips)
      requires forall u :: u in fleet && u != v ==> unchanged(u)
      requires v.place == old(v.place) && v.route == old(v.route) && v.index == old(v.index)
      requires v.segments == old(v.segments) && v.segEnter == old(v.segEnter) && v.closed == old(v.closed)
      requires v.position >= 0.0 && v.state != ExitedNetwork && (v == mover || v.Settled())
      ensures Inv(cur, gone, mover)
    {
      hide Roster, FleetOk, LeftOk, LogOk, LoadsOk, Vehicle.RouteOk, Vehicle.Settled;
      Before(v, cur, gone);
      Stayed(cur, gone, v);
      FleetStep(v, mover);
      LeftStep(v);
    }

    twostate lemma Before(v: Vehicle, new cur: Place, new gone: seq<Vehicle>)
      requires old(allocated(gone)) && old(Inv(cur, gone, v)) && v in old(At(cur)) && v !in gone
      ensures v in old(fleet) && old(v.state) != ExitedNetwork && old(v.Core(simTime, rounding))
    {
    }

    twostate lemma LoadsShrink(p: Place)
      requires old(LoadsOk()) && Load(At(p)) <= Load(old(At(p)))
      requires forall q: Place :: q != p ==> At(q) == old(At(q))
      ensures LoadsOk()
    {
      forall e: EdgeId ensures Load(At(OnEdge(e))) < EdgeMaxPcu(e) + MAX_PCU {
        assert Load(old(At(OnEdge(e)))) < EdgeMaxPcu(e) + MAX_PCU;
      }
    }

    method SortCell(p: Place)
      requires Inv(p, [], null)
      modifies this`cells
      ensures Inv(p, [], null) && Descending(At(p)) && Reorders(At(p), old(At(p)))
      ensures forall q: Place :: q != p ==> At(q) == old(At(q))
    {
      hide FleetOk, LeftOk, LogOk, LoadsOk, Load, Descending;
      var r := SortByPosition(At(p));
      cells := cells[p := r];
      LoadsShrink(p);
    }

    /** Takes the vehicles that left off the list they left; the others keep their order. */
    method RemoveGone(p: Place, gone: seq<Vehicle>)
      requires Inv(p, gone, null)
      modifies this`cells
      ensures Inv(p, [], null)
      ensures forall q: Place :: q != p ==> At(q) == old(At(q))
      ensures forall v :: v in At(p) <==> v in old(At(p)) && v !in gone
      ensures At(p) == Rest(old(At(p)), set v | v in gone)
    {
      hide Inv, Rest, NoDup;
      ghost var done: set<Vehicle> := {};
      var todo := gone;
      RestOfNone(At(p));
      ListDistinct(p, gone, p);
      while todo != []
        invariant Inv(p, todo, null)
        invariant forall v :: v in gone <==> v in done || v in todo
        invariant forall q: Place :: q != p ==> At(q) == old(At(q))
        invariant forall v :: v in At(p) <==> v in old(At(p)) && v !in done
        invariant At(p) == Rest(old(At(p)), done)
        decreases |todo|
      {
        assert todo == [todo[0]] + todo[1..];
        RemoveOne(p, todo[0], todo[1..]);
        RestWithout(old(At(p)), done, todo[0]);
        done, todo := done + {todo[0]}, todo[1..];
      }
      assert done == set v | v in gone;
    }

    method RemoveOne(p: Place, v: Vehicle, ghost rest: seq<Vehicle>)
      requires Inv(p, [v] + rest, null)
      modifies this`cells
      ensures Inv(p, rest, null)
      ensures forall q: Place :: q != p ==> At(q) == old(At(q))
      ensures v in old(At(p)) && At(p) == Without(old(At(p)), v)
      ensures forall u :: u in At(p) <==> u in old(At(p)) && u != v
    {
      hide FleetOk, LeftOk, LogOk, LoadsOk, Load, Without, NoDup;
      WithoutSpec(At(p), v);
      NoDupMiddle([], v, rest);
      assert [] + [v] + rest == [v] + rest && [] + rest == rest;
      cells := cells[p := Without(At(p), v)];
      LoadsShrink(p);
    }

    // ----- the edge pass -----

    /** A vehicle that reached the end of `e`: gone at a boundary, in a lane of the node, or held back. */
    predicate Arrived(v: Vehicle, e: EdgeId)
      reads v
    {
      if !IsIntersection(e.to) then v.state == ExitedNetwork && v.place == OnEdge(e)
      else
        || (v.state == BlockedAtEntry && v.place == OnEdge(e) && v.position == EdgeLength(e) - 0.01)
        || (v.state == Moving && v.place.InLane? && v.place.node == e.to && v.place.dir == ApproachOf(e) && v.position == 0.0)
    }

    /** What the edge pass does to a vehicle that stood at `from` on `e`, waiting at its end or not: it
        drives on at its new speed, and arrives exactly when that takes it to the end of the edge or
        it was already waiting there. */
    ghost predicate EdgeStepped(v: Vehicle, e: EdgeId, from: real, wasBlocked: bool, dt: real)
      requires dt >= 0.0
      reads v, this`weather
    {
      && v.vFree >= 10.0 && 0.0 <= v.speed <= Max(BUS_DWELL_KMH, FreeFlow(v.vFree, v.class_, weather))
      && var there := from + Advance(v.speed, dt, 1.0);
         if wasBlocked || there >= EdgeLength(e) then Arrived(v, e)
         else v.speed > 0.0 && v.position == there && v.place == OnEdge(e) && (v.state == Transit || v.state == Congested)
    }

    /** Edge lists stay, and lane lists only gain vehicles at the back. */
    static ghost predicate LanesGrew(before: map<Place, seq<Vehicle>>, after: map<Place, seq<Vehicle>>) {
      forall q: Place :: ListIn(before, q) <= ListIn(after, q) && (q.OnEdge? ==> ListIn(after, q) == ListIn(before, q))
    }

    static function ListIn(cells: map<Place, seq<Vehicle>>, p: Place): seq<Vehicle> {
      if p in cells then cells[p] else []
    }

    static lemma LanesGrewOn(a: map<Place, seq<Vehicle>>, b: map<Place, seq<Vehicle>>, c: map<Place, seq<Vehicle>>)
      requires LanesGrew(a, b) && LanesGrew(b, c)
      ensures LanesGrew(a, c)
    {
    }

    /** What an arrival at the end of `e`, let in or not, means for the vehicle and the lists. */
    method Arrive(v: Vehicle, e: EdgeId, ghost gone: seq<Vehicle>) returns (leaves: bool)
      requires Inv(OnEdge(e), gone, v) && v in At(OnEdge(e)) && v !in gone && v.Located()
      modifies this`cells, this`trips, this`exits, this`left, this`clocks
      modifies v`place, v`state, v`position, v`segments, v`segEnter, v`closed
      ensures Inv(OnEdge(e), if leaves then gone + [v] else gone, null)
      ensures At(OnEdge(e)) == old(At(OnEdge(e))) && old(exits) <= exits && (IsIntersection(e.to) ==> exits == old(exits))
      ensures Arrived(v, e) && LanesGrew(old(cells), cells) && OnlyForcedFor(e, v.priority)
    {
      hide Inv, Lookup, IsPath, ActivePcu, ContextOf, BoxBlocked, Vehicle.TimeUpTo, PredictedExitEdge, ForcedAt, ClockOf;
      Listed(OnEdge(e), gone, v, OnEdge(e), v);
      leaves := HandleEdgeArrival(v, e, gone);
    }

    /** One vehicle of `_tick_edges`. */
    method StepOnEdge(v: Vehicle, e: EdgeId, ahead: Vehicle?, dt: real, ghost gone: seq<Vehicle>) returns (leaves: bool)
      requires Inv(OnEdge(e), gone, null) && v in At(OnEdge(e)) && v !in gone && ahead != v && dt >= 0.0
      modifies this`cells, this`trips, this`exits, this`left, this`clocks, v
      ensures Inv(OnEdge(e), if leaves then gone + [v] else gone, null)
      ensures At(OnEdge(e)) == old(At(OnEdge(e))) && old(exits) <= exits
      ensures IsIntersection(e.to) ==> exits == old(exits)
      ensures EdgeStepped(v, e, old(v.position), old(v.state == BlockedAtEntry), dt) && LanesGrew(old(cells), cells)
      ensures OnlyForcedFor(e, v.priority) && (old(v.state) != BlockedAtEntry ==> v.SpeedLaw(old(v.MotionNow()), ahead, weather, dt))
    {
      hide Inv, Lookup, IsPath, Vehicle.SpeedLaw, Arrived, ForcedAt, ClockOf;
      Listed(OnEdge(e), gone, null, OnEdge(e), v);
      Loosen(OnEdge(e), gone, v);
      if v.state == BlockedAtEntry {
        QueueAtEnd(v, e, gone);
        leaves := Arrive(v, e, gone);
      } else {
        DriveOn(v, e, ahead, dt, gone);
        if v.position >= EdgeLength(e) {
          leaves := Arrive(v, e, gone);
        } else {
          Settle(v, OnEdge(e), gone);
          leaves := false;
        }
      }
    }

    method QueueAtEnd(v: Vehicle, e: EdgeId, ghost gone: seq<Vehicle>)
      requires Inv(OnEdge(e), gone, v) && v in At(OnEdge(e)) && v !in gone && v.LocatedAt(OnEdge(e), v.state)
      modifies v`wasWaiting, v`speed, v`position
      ensures Inv(OnEdge(e), gone, v) && v.speed == 0.0
    {
      hide Inv, Lookup, IsPath;
      Listed(OnEdge(e), gone, v, OnEdge(e), v);
      EdgeLengthAlong(v, e);
      v.RecordTick();
      v.speed := 0.0;
      v.position := Min(v.position, EdgeLength(e) - 0.01);
      MovedWithin(v, OnEdge(e), gone, v);
    }

    lemma EdgeLengthAlong(v: Vehicle, e: EdgeId)
      requires v.RouteOk() && v.LocatedAt(OnEdge(e), v.state)
      ensures IsEdge(e.from, e.to) && EdgeLength(e) >= 200.0
      ensures forall x :: Within(OnEdge(e), x) <==> x < EdgeLength(e)
    {
      EdgeTableShape(e.from, e.to);
    }

    method DriveOn(v: Vehicle, e: EdgeId, ahead: Vehicle?, dt: real, ghost gone: seq<Vehicle>)
      requires Inv(OnEdge(e), gone, v) && v in At(OnEdge(e)) && v !in gone && ahead != v && dt >= 0.0
      requires v.LocatedAt(OnEdge(e), v.state) && v.state != BlockedAtEntry && v.vFree >= 10.0
      modifies v`position, v`state, v`speed, v`dwell, v`wasWaiting
      ensures Inv(OnEdge(e), gone, v) && v.place == OnEdge(e) && v.LocatedAt(OnEdge(e), v.state)
      ensures v.speed > 0.0 && v.position == old(v.position) + Advance(v.speed, dt, 1.0) && v.RouteOk()
      ensures v.state == Transit || v.state == Congested
      ensures v.SpeedLaw(old(v.MotionNow()), ahead, weather, dt) && v.speed <= Max(BUS_DWELL_KMH, FreeFlow(v.vFree, v.class_, weather))
    {
      hide Inv, Lookup, Vehicle.RouteOk, Vehicle.SpeedLaw;
      Listed(OnEdge(e), gone, v, OnEdge(e), v);
      var dwells: bool := *;
      v.Drive(ahead, dwells, weather, dt);
      MovedWithin(v, OnEdge(e), gone, v);
    }

    method Settle(v: Vehicle, cur: Place, ghost gone: seq<Vehicle>)
      requires Inv(cur, gone, v) && v in At(cur) && v !in gone && v.LocatedAt(cur, v.state) && v.state != BlockedAtExit
      requires cur.OnEdge? ==> v.position < EdgeLength(cur.edge)
      requires cur.InLane? ==> v.position < EXIT_POINT
      ensures Inv(cur, gone, null)
    {
      hide LeftOk, LogOk, LoadsOk, Vehicle.Core;
    }

    /** The sorted vehicles of edge `e`, one after the other. */
    method StepAll(e: EdgeId, vs: seq<Vehicle>, dt: real) returns (gone: seq<Vehicle>)
      requires Inv(OnEdge(e), [], null) && vs == At(OnEdge(e)) && NoDup(vs) && dt >= 0.0
      requires forall v :: v in vs ==> v in fleet
      modifies this`cells, this`trips, this`exits, this`left, this`clocks, fleet
      ensures Inv(OnEdge(e), gone, null) && old(exits) <= exits && LanesGrew(old(cells), cells)
      ensures OnlyForcedFor(e, HasPriority(vs)) && FollowsQueue(vs, old(Motions(vs)), dt)
      ensures IsIntersection(e.to) ==> exits == old(exits)
      ensures forall v :: v in vs ==> EdgeStepped(v, e, old(v.position), old(v.state == BlockedAtEntry), dt)
      ensures forall v :: v in fleet && v !in vs ==> unchanged(v)
    {
      hide Inv, NoDup, Load, EdgeStepped, LanesGrew, ClockOf, Vehicle.SpeedLaw, Forced, HasPriority, Motions;
      gone := [];
      LanesStay(cells);
      ForcedTwice(e, e);
      ghost var motions := Motions(vs);
      for i := 0 to |vs|
        invariant Inv(OnEdge(e), gone, null) && At(OnEdge(e)) == vs && old(exits) <= exits
        invariant LanesGrew(old(cells), cells) && OnlyForcedFor(e, HasPriority(vs[..i]))
        invariant forall v :: v in gone ==> v in vs[..i]
        invariant forall j: nat :: j < i ==> Follows(vs, j, motions[j], dt) && Stepped(vs[j], e, motions[j], dt)
        invariant IsIntersection(e.to) ==> exits == old(exits)
        invariant forall j :: i <= j < |vs| ==> unchanged(vs[j])
        invariant forall v :: v in fleet && v !in vs ==> unchanged(v)
      {
        var v := vs[i];
        PrefixStep(vs, i);
        OthersDiffer(vs, i);
        ghost var before := cells;
        assert motions[i] == v.MotionNow();
        var leaves := StepOnEdge(v, e, if i > 0 then vs[i - 1] else null, dt, gone);
        LanesGrewOn(old(cells), before, cells);
        PriorityStep(vs, i);
        if leaves {
          gone := gone + [v];
        }
      }
      assert vs[..|vs|] == vs;
      forall v | v in vs ensures EdgeStepped(v, e, old(v.position), old(v.state == BlockedAtEntry), dt) {
        var j: nat :| j < |vs| && vs[j] == v;
        assert Stepped(vs[j], e, motions[j], dt);
      }
    }

    /** Some vehicle of the list has priority. */
    static ghost predicate HasPriority(vs: seq<Vehicle>) {
      exists v :: v in vs && v.priority
    }

    static lemma PriorityStep(vs: seq<Vehicle>, i: nat)
      requires i < |vs|
      ensures HasPriority(vs[..i + 1]) <==> HasPriority(vs[..i]) || vs[i].priority
      ensures vs[..|vs|] == vs
    {
      assert vs[..i + 1] == vs[..i] + [vs[i]];
    }

    static lemma SamePriority(a: seq<Vehicle>, b: seq<Vehicle>)
      requires forall v :: v in a <==> v in b
      ensures HasPriority(a) <==> HasPriority(b)
    {
    }

    ghost function Motions(vs: seq<Vehicle>): (ms: seq<Motion>)
      reads vs
      ensures |ms| == |vs| && forall i :: 0 <= i < |vs| ==> ms[i] == vs[i].MotionNow()
    {
      if vs == [] then [] else Motions(vs[..|vs| - 1]) + [vs[|vs| - 1].MotionNow()]
    }

    /** Whoever was driving follows the vehicle before it in the queue, which has already moved. */
    ghost predicate FollowsQueue(vs: seq<Vehicle>, motions: seq<Motion>, dt: real)
      requires |motions| == |vs|
      reads this`weather, vs
    {
      forall j: nat :: j < |vs| ==> Follows(vs, j, motions[j], dt)
    }

    ghost predicate Stepped(v: Vehicle, e: EdgeId, before: Motion, dt: real)
      requires dt >= 0.0
      reads v, this`weather
    {
      EdgeStepped(v, e, before.position, before.state == BlockedAtEntry, dt)
    }

    ghost predicate Follows(vs: seq<Vehicle>, j: nat, before: Motion, dt: real)
      requires j < |vs|
      reads this`weather, vs[j], if j > 0 then vs[j - 1] else vs[j]
    {
      before.state != BlockedAtEntry ==> vs[j].SpeedLaw(before, if j > 0 then vs[j - 1] else null, weather, dt)
    }

    static lemma LanesStay(cells: map<Place, seq<Vehicle>>)
      ensures LanesGrew(cells, cells)
    {
    }

    /** `_tick_edges` for one edge: sort, step every vehicle, then drop those that left.  `queue` is the
        sorted list, in which every vehicle follows the one before it. */
    method TickEdge(e: EdgeId, dt: real) returns (ghost queue: seq<Vehicle>, ghost motions: seq<Motion>)
      requires Valid() && dt >= 0.0
      modifies this`cells, this`trips, this`exits, this`left, this`clocks, fleet
      ensures Valid() && old(exits) <= exits
      ensures Reorders(queue, old(At(OnEdge(e)))) && |motions| == |queue| && FollowsQueue(queue, motions, dt)
      ensures forall v, i :: v in old(At(OnEdge(e))) && 0 <= i < |queue| && queue[i] == v ==> motions[i] == old(v.MotionNow())
      ensures forall i, j :: 0 <= i < j < |motions| ==> motions[i].position >= motions[j].position
      ensures OnlyForcedFor(e, HasPriority(old(At(OnEdge(e)))))
      ensures IsIntersection(e.to) ==> exits == old(exits)
      ensures forall v :: v in old(At(OnEdge(e))) ==> EdgeStepped(v, e, old(v.position), old(v.state == BlockedAtEntry), dt)
      ensures forall v :: v in fleet && v !in old(At(OnEdge(e))) ==> unchanged(v)
      ensures forall q: Place :: q != OnEdge(e) ==> old(At(q)) <= At(q) && (q.OnEdge? ==> At(q) == old(At(q)))
    {
      hide Inv, NoDup, Load, EdgeStepped, Reorders, ClockOf, ForcedAt, FollowsQueue, HasPriority, Motions, Rest;
      var p := OnEdge(e);
      AnyList(OnEdge(EDGE_IDS[0]), p);
      ListDistinct(p, [], p);
      Apart(p);
      SortCell(p);
      queue, motions := At(p), Motions(At(p));
      ReordersFacts(queue, old(At(p)));
      SamePriority(queue, old(At(p)));
      var gone := StepAll(e, At(p), dt);
      RemoveGone(p, gone);
      AnyList(p, OnEdge(EDGE_IDS[0]));
    }

    /** The place of the vehicle's edge in the order of the edge pass; 22 for a vehicle on no edge. */
    function EdgeTurn(v: Vehicle): (k: nat)
      reads v`state, v`place
    {
      if v.state != ExitedNetwork && v.place.OnEdge? then EdgeIndex(v.place.edge, 0) else |EDGE_IDS|
    }

    lemma ListedByTurn(k: nat)
      requires Valid() && k < |EDGE_IDS|
      ensures forall v :: v in fleet ==> (v in At(OnEdge(EDGE_IDS[k])) <==> EdgeTurn(v) == k)
      ensures forall v :: v in At(OnEdge(EDGE_IDS[k])) ==> v in fleet
    {
      hide FleetOk, LeftOk, LogOk, LoadsOk, EdgeIndex;
      forall v | v in fleet && v.place.OnEdge? ensures EdgeIndex(v.place.edge, 0) == k <==> v.place.edge == EDGE_IDS[k] {
        if v.place.edge == EDGE_IDS[k] && EdgeIndex(v.place.edge, 0) != k {
          EdgesDistinct(EdgeIndex(v.place.edge, 0), k);
        }
      }
    }

    /** `_tick_edges`: every vehicle on an edge drives on or arrives; the others stay as they are. */
    method TickEdges(dt: real)
      requires Valid() && dt >= 0.0
      modifies this`cells, this`trips, this`exits, this`left, this`clocks, fleet
      ensures Valid() && old(exits) <= exits
      ensures forall n: Node :: Preempted(n, old(ClockOf(n)), old(UrgentEdges()))
      ensures forall v :: v in fleet ==>
                if old(v.state) != ExitedNetwork && old(v.place).OnEdge?
                then EdgeStepped(v, old(v.place).edge, old(v.position), old(v.state == BlockedAtEntry), dt)
                else unchanged(v)
      ensures forall p: Place :: p.InLane? ==> old(At(p)) <= At(p)
    {
      hide Inv, EdgeStepped, EdgeIndex, ClockOf, EDGE_IDS, UrgentEdges;
      EveryTurn();
      forall k: nat | k < |EDGE_IDS| ensures forall v :: v in fleet ==> (v in At(OnEdge(EDGE_IDS[k])) <==> EdgeTurn(v) == k) {
        ListedByTurn(k);
      }
      ghost var urgent := UrgentEdges();
      forall k: nat | k < |EDGE_IDS| ensures HasPriority(At(OnEdge(EDGE_IDS[k]))) ==> EDGE_IDS[k] in urgent {
        UrgentEdge(EDGE_IDS[k]);
      }
      for k := 0 to |EDGE_IDS|
        invariant Valid() && old(exits) <= exits
        invariant forall n: Node :: Preempted(n, old(ClockOf(n)), urgent)
        invariant forall v :: v in fleet ==>
                    if old(EdgeTurn(v)) < k
                    then EdgeStepped(v, old(v.place).edge, old(v.position), old(v.state == BlockedAtEntry), dt)
                    else unchanged(v)
        invariant forall j: nat :: k <= j < |EDGE_IDS| ==> At(OnEdge(EDGE_IDS[j])) == old(At(OnEdge(EDGE_IDS[j])))
        invariant forall p: Place :: p.InLane? ==> old(At(p)) <= At(p)
      {
        forall j: nat | j < |EDGE_IDS| && j != k ensures EDGE_IDS[j] != EDGE_IDS[k] {
          EdgesDistinct(j, k);
        }
        ghost var queue, motions := TickEdge(EDGE_IDS[k], dt);
      }
    }

    /** At the start of lane `p`, having come from the edge that leads to it. */
    predicate JustEntered(v: Vehicle, p: Place, from: Place)
      reads v
    {
      && LeadsTo(from, p) && v.state == Moving && v.place == p && v.position == 0.0
    }

    /** After the edge pass, a lane's new vehicles have just entered and its others are as they were. */
    twostate lemma Entrants(new p: Place, new dt: real)
      requires p.InLane? && dt >= 0.0 && old(Valid()) && Valid() && fleet == old(fleet)
      requires forall v :: v in fleet ==>
                if old(v.state) != ExitedNetwork && old(v.place).OnEdge?
                then EdgeStepped(v, old(v.place).edge, old(v.position), old(v.state == BlockedAtEntry), dt)
                else unchanged(v)
      ensures forall v :: v in At(p) && v !in old(At(p)) ==> v in fleet && old(v.state) != ExitedNetwork && JustEntered(v, p, old(v.place))
      ensures forall v :: v in old(At(p)) ==> v in fleet && unchanged(v)
    {
      hide FleetOk, LeftOk, LogOk, LoadsOk;
      forall v | v in old(At(p)) ensures v in fleet && !(old(v.state) != ExitedNetwork && old(v.place).OnEdge?) {
        assert v in old(fleet) && old(v.place) == p;
      }
    }

    /** Whoever has just entered does not cross yet. */
    twostate lemma ClearAfterEdges(new n: Node, new d: Direction, new dt: real)
      requires dt >= 0.0 && old(Valid()) && Valid() && fleet == old(fleet)
      requires forall p: Place :: p.InLane? ==> old(At(p)) <= At(p)
      requires forall v :: v in fleet ==>
                if old(v.state) != ExitedNetwork && old(v.place).OnEdge?
                then EdgeStepped(v, old(v.place).edge, old(v.position), old(v.state == BlockedAtEntry), dt)
                else unchanged(v)
      ensures Clear(n, d) == old(Clear(n, d))
    {
      hide Inv, EdgeStepped, At;
      Entrants(InLane(n, d, Straight), dt);
      Entrants(InLane(n, d, Left), dt);
      Entrants(InLane(n, d, Right), dt);
      forall u | u in Approach(n, d) && u !in old(Approach(n, d)) ensures !Crosses(u, n, d) {
        assert u.position == 0.0;
      }
      forall u | u in old(Approach(n, d)) ensures u in Approach(n, d) && u in fleet && unchanged(u) {
      }
    }

    /** The edges on which a priority vehicle stands. */
    ghost function UrgentEdges(): set<EdgeId>
      reads this`fleet, fleet`state, fleet`place
    {
      set v | v in fleet && v.priority && v.state != ExitedNetwork && v.place.OnEdge? :: v.place.edge
    }

    lemma UrgentEdge(e: EdgeId)
      requires Valid()
      ensures HasPriority(At(OnEdge(e))) ==> e in UrgentEdges()
    {
      hide FleetOk, LeftOk, LogOk, LoadsOk;
    }

    /** The clock of `n` is as before, or was forced to the green of an approach with a priority vehicle. */
    predicate Preempted(n: Node, before: Clock, urgent: set<EdgeId>)
      reads this`clocks
    {
      ClockOf(n) == before || exists e :: e in urgent && ForcedAt(n, before, e)
    }

    lemma EveryTurn()
      requires Valid()
      ensures forall v :: v in fleet ==> (EdgeTurn(v) < |EDGE_IDS| <==> v.state != ExitedNetwork && v.place.OnEdge?)
    {
      hide Roster, LeftOk, LogOk, LoadsOk, EdgeIndex;
      forall v | v in fleet && v.state != ExitedNetwork && v.place.OnEdge? ensures EdgeTurn(v) < |EDGE_IDS| {
        assert IsEdge(v.route[v.index], v.route[v.index + 1]);
        EdgeListed(v.place.edge);
      }
    }

    // ----- the node pass -----

    /** Drives straight through the node from side `d`, at or past the stop line. */
    predicate Crosses(u: Vehicle, n: Node, d: Direction)
      reads u
    {
      && u.place == InLane(n, d, Straight) && u.position >= STOP_LINE - 0.05
      && (u.state == Moving || u.state == Congested)
    }

    /** Nobody who comes from side `d` crosses. */
    predicate Clear(n: Node, d: Direction)
      reads this`cells, Approach(n, d)
    {
      forall u :: u in Approach(n, d) ==> !Crosses(u, n, d)
    }

    /** `_right_on_red_ok`, given whether the conflicting side is clear. */
    predicate TurnOk(p: Place, clear: bool)
      requires p.InLane?
      reads this`clocks
    {
      && p.lane.Right? && RightOnRedAllowed(p.node)
      && (ColorAt(p.node, RightOnRedConflict(p.dir)).Green? ==> clear)
    }

    predicate RightOnRedOk(v: Vehicle)
      requires v.place.InLane?
      reads v, this`cells, this`clocks, Approach(v.place.node, RightOnRedConflict(v.place.dir))
    {
      TurnOk(v.place, Clear(v.place.node, RightOnRedConflict(v.place.dir)))
    }

    /** Neither green, nor committed on yellow, nor priority: only the right-on-red rule can let it go. */
    predicate OnlyByRule(p: Place, position: real, priority: bool)
      requires p.InLane?
      reads this`clocks
    {
      var c := ColorAt(p.node, p.dir);
      !c.Green? && !(c.Yellow? && position >= COMMITMENT) && !priority
    }

    predicate NeedsRule(v: Vehicle)
      requires v.place.InLane?
      reads v, this`clocks
    {
      OnlyByRule(v.place, v.position, v.priority)
    }

    /** Let through by the right-on-red rule: not held at the exit, in need of the rule, and allowed. */
    predicate LetThrough(p: Place, wasBlocked: bool, position: real, priority: bool, clear: bool)
      requires p.InLane?
      reads this`clocks
    {
      !wasBlocked && OnlyByRule(p, position, priority) && TurnOk(p, clear)
    }

    /** What the rule comes to: at A and C a vehicle in the right lane, neither held nor with priority, goes
        on red unless the other road has green and its watched approach is not clear, and on yellow
        whatever that approach does. */
    lemma LetThroughIff(p: Place, wasBlocked: bool, position: real, priority: bool, clear: bool)
      requires p.InLane?
      ensures LetThrough(p, wasBlocked, position, priority, clear) <==>
                && p.lane.Right? && p.node in {A, C} && !wasBlocked && !priority
                && (|| (ColorAt(p.node, p.dir).Yellow? && position < 0.85)
                    || (ColorAt(p.node, p.dir).Red? && (clear || forall d: Direction :: ColorAt(p.node, d) != Green)))
    {
      OneRoadAtATime(ClockOf(p.node).phase, p.dir, RightOnRedConflict(p.dir));
      forall d: Direction ensures !SameRoad(p.dir, d) ==> ColorAt(p.node, d) == ColorAt(p.node, RightOnRedConflict(p.dir)) {
        OneRoadAtATime(ClockOf(p.node).phase, d, RightOnRedConflict(p.dir));
      }
    }

    /** The side that a right turn from lane `p` conflicts with is clear. */
    predicate ClearAhead(p: Place)
      requires p.InLane?
      reads this`cells, Approach(p.node, RightOnRedConflict(p.dir))
    {
      Clear(p.node, RightOnRedConflict(p.dir))
    }

    /** What lane `p` finds at its turn in the node pass: a conflicting side that comes first in the order
        of the pass has taken its turns, one that comes later stands as `before`. */
    predicate FoundClear(p: Place, before: bool)
      requires p.InLane?
      reads this`cells, Approach(p.node, RightOnRedConflict(p.dir))
    {
      if DirRank(RightOnRedConflict(p.dir)) < DirRank(p.dir) then ClearAhead(p) else before
    }

    /** On red against a green road a driver from east or west is let through only if no vehicle drives straight on
        past the line of the watched approach when that approach has taken its turns; a driver from north or
        south, who comes before it in the order, only if none did before. */
    lemma WatchedApproachIsClear(p: Place, wasBlocked: bool, position: real, priority: bool, before: bool)
      requires p.InLane? && LetThrough(p, wasBlocked, position, priority, FoundClear(p, before))
      requires ColorAt(p.node, p.dir).Red? && ColorAt(p.node, RightOnRedConflict(p.dir)).Green?
      ensures p.dir.North? || p.dir.South? ==> before
      ensures p.dir.East? || p.dir.West? ==>
                forall u :: u in Approach(p.node, RightOnRedConflict(p.dir)) ==>
                  u.place == InLane(p.node, RightOnRedConflict(p.dir), Straight) && u.position >= 0.95 ==>
                    u.state != Moving && u.state != Congested
    {
    }

    /** The rule lets `v` through from lane `p` in the present state. */
    predicate PassesRule(v: Vehicle, p: Place)
      requires p.InLane?
      reads v, this`cells, this`clocks, Approach(p.node, RightOnRedConflict(p.dir))
    {
      LetThrough(p, v.state == BlockedAtExit, v.position, v.priority, ClearAhead(p))
    }

    /** A vehicle may cross: green, committed on yellow, priority, or a right turn on red. */
    predicate MayProceed(v: Vehicle)
      requires v.place.InLane?
      reads v, this`cells, this`clocks, Approach(v.place.node, RightOnRedConflict(v.place.dir))
    {
      !NeedsRule(v) || RightOnRedOk(v)
    }

    /** Out of the network, or on an edge that leaves the node. */
    predicate HasLeft(v: Vehicle, p: Place)
      requires p.InLane?
      reads v
    {
      (v.state == ExitedNetwork && v.place == p) || (v.place.OnEdge? && v.place.edge.from == p.node)
    }

    /** At the exit point: out of the node, or held there by a full edge. */
    predicate AtExit(v: Vehicle, p: Place)
      requires p.InLane?
      reads v
    {
      HasLeft(v, p) || (v.state == BlockedAtExit && v.place == p && v.position == EXIT_POINT - 0.01)
    }

    /** What the node pass does to a vehicle that stood at `from` in lane `p` showing `c`, held at the
        exit or not; `passed` when the right-on-red check let it through.  A vehicle that may proceed
        drives on at its new speed and reaches the exit exactly when that takes it there; one that
        may not stays at or before the stop line, on yellow before the commitment point. */
    ghost predicate LaneStepped(v: Vehicle, p: Place, from: real, wasBlocked: bool, c: Color, passed: bool, dt: real)
      requires p.InLane? && dt >= 0.0
      reads v
    {
      && v.speed >= 0.0
      && if wasBlocked then AtExit(v, p)
         else if c.Green? || (c.Yellow? && from >= COMMITMENT) || v.priority || passed then
           var there := from + Advance(v.speed, dt, LaneScale(from));
           && v.speed > 0.0
           && if there >= EXIT_POINT then AtExit(v, p)
              else v.place == p && (v.state == Moving || v.state == Congested) && v.position == there
         else
           && v.place == p && (v.state == Moving || v.state == Congested || v.state == Waiting)
           && v.position <= if c.Yellow? then COMMITMENT - 0.01 else STOP_LINE
    }

    /** A vehicle held at the exit tries again: nothing about it, the lists and the exits changes against an
        edge that is still full exactly when at least two hops are left.  With one hop left it leaves the
        network at the node, full edge or not. */
    method RetryExit(v: Vehicle, p: Place, ghost gone: seq<Vehicle>) returns (leaves: bool)
      requires p.InLane? && Inv(p, gone, null) && v in At(p) && v !in gone && v.state == BlockedAtExit
      modifies this`cells, this`trips, this`exits, this`left, v
      ensures Inv(p, if leaves then gone + [v] else gone, null) && v.speed == 0.0
      ensures At(p) == old(At(p)) && old(exits) <= exits && leaves == HasLeft(v, p)
      ensures forall q: Place :: q.InLane? ==> At(q) == old(At(q))
      ensures AtExit(v, p)
      ensures old(HopsLeft(v)) >= 1
      ensures old(HopsLeft(v)) == 1 ==>
                && v.state == ExitedNetwork && v.place == p && cells == old(cells) && old(exits) < exits && |exits| == |old(exits)| + 1
                && v.segments == old(v.segments)[NodeCtx(p.node) := old(v.TimeUpTo(simTime, rounding))]
                && var x := exits[|old(exits)|]; x.vehicle == v && x.route == old(v.route) && x.hop == old(v.index) && x.blocked
      ensures old(EdgeIsFull(NextEdge(p.node, v.route[v.index + 1]), 1.0)) ==>
                (AsBefore(v) && cells == old(cells) && exits == old(exits) <==> old(HopsLeft(v)) >= 2)
    {
      hide Inv, IsPath, ActivePcu, ContextOf, Lookup, EndsAt;
      Listed(p, gone, null, p, v);
      Loosen(p, gone, v);
      v.RecordTick();
      v.speed := 0.0;
      v.position := Min(v.position, EXIT_POINT - 0.01);
      MovedWithin(v, p, gone, v);
      leaves := HandleIntersectionExit(v, p, gone);
    }

    function HopsLeft(v: Vehicle): int
      reads v
    {
      |v.route| - 1 - v.index
    }

    twostate predicate AsBefore(v: Vehicle)
      reads v
    {
      && v.route == old(v.route) && v.index == old(v.index) && v.place == old(v.place) && v.state == old(v.state)
      && v.position == old(v.position) && v.segments == old(v.segments) && v.segEnter == old(v.segEnter)
    }

    /** One vehicle of `_tick_intersections`. */
    method StepInLane(v: Vehicle, p: Place, ahead: Vehicle?, dt: real, ghost gone: seq<Vehicle>)
      returns (leaves: bool, ghost passed: bool)
      requires p.InLane? && Inv(p, gone, null) && v in At(p) && v !in gone && dt >= 0.0
      requires ahead != v && (ahead != null ==> ahead.position >= 0.0)
      modifies this`cells, this`trips, this`exits, this`left, v
      ensures Inv(p, if leaves then gone + [v] else gone, null)
      ensures At(p) == old(At(p)) && old(exits) <= exits && leaves == HasLeft(v, p)
      ensures forall q: Place :: q.InLane? ==> At(q) == old(At(q))
      ensures passed <==> old(PassesRule(v, p))
      ensures LaneStepped(v, p, old(v.position), old(v.state == BlockedAtExit), ColorAt(p.node, p.dir), passed, dt)
    {
      hide Inv, IsPath, ActivePcu, ContextOf, Lookup;
      Listed(p, gone, null, p, v);
      Loosen(p, gone, v);
      passed := false;
      if v.state == BlockedAtExit {
        leaves := RetryExit(v, p, gone);
      } else if !MayProceed(v) {
        HoldInLane(v, p, ahead, dt, gone);
        leaves := false;
      } else {
        passed := NeedsRule(v);
        ProceedInLane(v, p, ahead, dt, gone);
        if v.position >= EXIT_POINT {
          leaves := HandleIntersectionExit(v, p, gone);
        } else {
          Settle(v, p, gone);
          leaves := false;
        }
      }
    }

    method HoldInLane(v: Vehicle, p: Place, ahead: Vehicle?, dt: real, ghost gone: seq<Vehicle>)
      requires p.InLane? && Inv(p, gone, v) && v in At(p) && v !in gone && dt >= 0.0
      requires v.LocatedAt(p, v.state) && v.state != BlockedAtExit
      requires ahead != v && (ahead != null ==> ahead.position >= 0.0)
      modifies v`position, v`state, v`speed, v`wasWaiting
      ensures Inv(p, gone, null) && v.place == p
      ensures v.state == Waiting || v.state == Moving || v.state == Congested
      ensures v.speed >= 0.0
      ensures v.position <= if ColorAt(p.node, p.dir).Yellow? then COMMITMENT - 0.01 else STOP_LINE
    {
      hide Inv, Lookup, Vehicle.RouteOk;
      Listed(p, gone, v, p, v);
      var stop := if ColorAt(p.node, p.dir).Yellow? then COMMITMENT - 0.01 else STOP_LINE;
      v.Hold(ahead, stop, weather, dt);
      MovedWithin(v, p, gone, null);
    }

    method ProceedInLane(v: Vehicle, p: Place, ahead: Vehicle?, dt: real, ghost gone: seq<Vehicle>)
      requires p.InLane? && Inv(p, gone, v) && v in At(p) && v !in gone && dt >= 0.0 && ahead != v
      requires v.LocatedAt(p, v.state) && v.state != BlockedAtExit
      modifies v`position, v`state, v`speed, v`wasWaiting, v`startup
      ensures Inv(p, gone, v) && v.place == p && v.LocatedAt(p, v.state)
      ensures v.state == Moving || v.state == Congested
      ensures v.speed > 0.0 && v.position == old(v.position) + Advance(v.speed, dt, LaneScale(old(v.position)))
    {
      hide Inv, Lookup, Vehicle.RouteOk;
      Listed(p, gone, v, p, v);
      var onIncident := p.node in incident && incident[p.node] == p.dir;
      v.Proceed(ahead, onIncident, weather, dt);
      MovedWithin(v, p, gone, v);
    }

    lemma PositionOf(v: Vehicle, cur: Place, gone: seq<Vehicle>)
      requires Inv(cur, gone, null) && v in fleet
      ensures v.position >= 0.0
    {
    }

    lemma ListDistinct(cur: Place, gone: seq<Vehicle>, p: Place)
      requires Inv(cur, gone, null)
      ensures NoDup(At(p))
    {
    }

    lemma Apart(p: Place)
      requires Valid()
      ensures forall v :: v in At(p) ==> v in fleet && v.place == p
      ensures forall q: Place, v: Vehicle :: q != p && v in At(q) ==> v in fleet && v !in At(p)
    {
      hide FleetOk, LeftOk, LogOk, LoadsOk;
    }

    /** The vehicles of lane `p` that the right-on-red rule lets through at the lane's turn. */
    ghost function Allowed(p: Place): set<Vehicle>
      requires p.InLane?
      reads this`cells, this`clocks, At(p), Approach(p.node, RightOnRedConflict(p.dir))
    {
      AllowedIf(p, ClearAhead(p))
    }

    /** The same, given whether the conflicting side is clear. */
    ghost function AllowedIf(p: Place, clear: bool): set<Vehicle>
      requires p.InLane?
      reads this`cells, this`clocks, At(p)
    {
      set v | v in At(p) && LetThrough(p, v.state == BlockedAtExit, v.position, v.priority, clear)
    }

    twostate lemma AllowedStays(new p: Place, new clear: bool)
      requires p.InLane? && clocks == old(clocks) && At(p) == old(At(p)) && forall v :: v in At(p) ==> unchanged(v)
      ensures AllowedIf(p, clear) == old(AllowedIf(p, clear))
    {
      hide At, LetThrough;
      assert forall v :: v in At(p) ==> LetThrough(p, v.state == BlockedAtExit, v.position, v.priority, clear)
                                          == old(LetThrough(p, v.state == BlockedAtExit, v.position, v.priority, clear));
    }

    twostate lemma AllowedKept(new p: Place)
      requires p.InLane? && cells == old(cells) && clocks == old(clocks)
      requires forall v :: v in At(p) || v in Approach(p.node, RightOnRedConflict(p.dir)) ==> unchanged(v)
      ensures Allowed(p) == old(Allowed(p))
    {
      hide Clear;
      ClearStays(p.node, RightOnRedConflict(p.dir));
      AllowedStays(p, ClearAhead(p));
    }

    /** `_tick_intersections` for one lane: step a sorted copy, then drop those that left. */
    method TickLane(p: Place, dt: real)
      requires p.InLane? && Valid() && dt >= 0.0
      modifies this`cells, this`trips, this`exits, this`left, fleet
      ensures Valid() && old(exits) <= exits
      ensures forall q: Place :: q.InLane? && q != p ==> At(q) == old(At(q))
      ensures forall v :: v in fleet && v !in old(At(p)) ==> unchanged(v)
      ensures forall v :: v in At(p) <==> v in old(At(p)) && !HasLeft(v, p)
      ensures forall v :: v in old(At(p)) ==>
                LaneStepped(v, p, old(v.position), old(v.state == BlockedAtExit), ColorAt(p.node, p.dir), v in old(Allowed(p)), dt)
    {
      hide Inv, LaneStepped, NoDup, Load, ColorAt, Reorders, Descending, HasLeft, Allowed, AllowedIf, Rest, RightOnRedConflict, At, Approach;
      AnyList(OnEdge(EDGE_IDS[0]), p);
      Apart(p);
      OthersApart(p);
      ListDistinct(p, [], p);
      var queue := SortByPosition(At(p));
      AllowedKept(p);
      ReordersFacts(queue, At(p));
      var gone := StepQueue(p, queue, dt);
      RemoveGone(p, gone);
      AnyList(p, OnEdge(EDGE_IDS[0]));
    }

    /** Until its own turn comes, the rule says of a vehicle what it said at the start of the lane's turn. */
    twostate lemma RuleAsBefore(new p: Place, v: Vehicle)
      requires p.InLane? && v in old(At(p)) && unchanged(v) && clocks == old(clocks)
      requires forall q: Place :: q.InLane? ==> At(q) == old(At(q))
      requires forall u :: u in old(Approach(p.node, RightOnRedConflict(p.dir))) ==> unchanged(u)
      ensures PassesRule(v, p) <==> v in old(Allowed(p))
    {
      hide At, LetThrough, Clear;
      ClearStays(p.node, RightOnRedConflict(p.dir));
      AllowedMember(p, old(ClearAhead(p)), v);
    }

    /** The sorted vehicles of lane `p`, one after the other. */
    method StepQueue(p: Place, queue: seq<Vehicle>, dt: real) returns (gone: seq<Vehicle>)
      requires p.InLane? && Inv(p, [], null) && NoDup(queue) && dt >= 0.0
      requires forall v :: v in queue <==> v in At(p)
      requires forall v :: v in queue ==> v in fleet
      requires forall u :: u in Approach(p.node, RightOnRedConflict(p.dir)) ==> u in fleet && u !in queue
      modifies this`cells, this`trips, this`exits, this`left, fleet
      ensures Inv(p, gone, null) && old(exits) <= exits && At(p) == old(At(p))
      ensures forall q: Place :: q.InLane? ==> At(q) == old(At(q))
      ensures forall v :: v in gone <==> v in queue && HasLeft(v, p)
      ensures forall v :: v in queue ==>
                LaneStepped(v, p, old(v.position), old(v.state == BlockedAtExit), ColorAt(p.node, p.dir), v in old(Allowed(p)), dt)
      ensures forall v :: v in fleet && v !in queue ==> unchanged(v)
    {
      hide Inv, LaneStepped, NoDup, Load, ColorAt, HasLeft, PassesRule, Allowed, Approach;
      gone := [];
      ghost var others := Approach(p.node, RightOnRedConflict(p.dir));
      ghost var allowed := Allowed(p);
      for i := 0 to |queue|
        invariant Inv(p, gone, null) && old(exits) <= exits && At(p) == old(At(p))
        invariant forall q: Place :: q.InLane? ==> At(q) == old(At(q))
        invariant forall v :: v in gone <==> v in queue[..i] && HasLeft(v, p)
        invariant forall j :: 0 <= j < i ==>
                    LaneStepped(queue[j], p, old(queue[j].position), old(queue[j].state == BlockedAtExit), ColorAt(p.node, p.dir), queue[j] in allowed, dt)
        invariant forall j :: i <= j < |queue| ==> unchanged(queue[j])
        invariant forall v :: v in fleet && v !in queue ==> unchanged(v)
      {
        var v := queue[i];
        PrefixStep(queue, i);
        OthersDiffer(queue, i);
        if i > 0 {
          PositionOf(queue[i - 1], p, gone);
        }
        RuleAsBefore(p, v);
        var leaves, byRule := StepInLane(v, p, if i > 0 then queue[i - 1] else null, dt, gone);
        if leaves {
          gone := gone + [v];
        }
      }
    }

    /** Whether a side is clear depends on its lists and vehicles alone. */
    twostate lemma ClearStays(new n: Node, new d: Direction)
      requires Approach(n, d) == old(Approach(n, d)) && forall u :: u in Approach(n, d) ==> unchanged(u)
      ensures Clear(n, d) == old(Clear(n, d))
    {
      hide Approach;
    }

    /** The conflicting side's vehicles are not in the lane. */
    lemma OthersApart(p: Place)
      requires Valid() && p.InLane?
      ensures forall u :: u in Approach(p.node, RightOnRedConflict(p.dir)) ==> u in fleet && u !in At(p)
    {
      hide Inv, At;
      Apart(p);
    }

    /** The lane of a vehicle in the order of the node pass; 48 for a vehicle in no lane. */
    function LaneTurn(v: Vehicle): nat
      reads v`state, v`place
    {
      if v.state != ExitedNetwork && v.place.InLane? then Rank(v.place) else 48
    }

    lemma ListedByLane(k: nat)
      requires Valid() && k < 48
      ensures forall v :: v in fleet ==> (v in At(LanePlace(k)) <==> LaneTurn(v) == k)
      ensures forall v :: v in fleet && LaneTurn(v) == k ==> LanePlace(k) == v.place
      ensures forall v :: v in At(LanePlace(k)) ==> v in fleet
    {
      hide LeftOk, LogOk, LoadsOk, LanePlace, Rank;
      LanePlaceRank(k);
      forall v | v in fleet && v.state != ExitedNetwork && v.place.InLane? ensures Rank(v.place) == k ==> LanePlace(k) == v.place {
        RankPlace(v.place);
      }
    }

    /** A lane's turn leaves the other sides as clear, or as occupied, as they were. */
    twostate lemma ClearElsewhere(new p: Place)
      requires p.InLane? && fleet == old(fleet)
      requires forall q: Place :: q.InLane? && q != p ==> At(q) == old(At(q))
      requires forall q: Place, v: Vehicle :: q != p && v in old(At(q)) ==> v in old(fleet) && v !in old(At(p))
      requires forall v :: v in fleet && v !in old(At(p)) ==> unchanged(v)
      ensures forall n, d :: n != p.node || d != p.dir ==> Clear(n, d) == old(Clear(n, d))
    {
      hide At, Clear;
      forall n: Node, d: Direction | n != p.node || d != p.dir ensures Clear(n, d) == old(Clear(n, d)) {
        forall u | u in Approach(n, d) ensures u in fleet && u !in old(At(p)) {
          var l := if u in At(InLane(n, d, Straight)) then Straight else if u in At(InLane(n, d, Left)) then Left else Right;
          var q := InLane(n, d, l);
          assert q != p && u in old(At(q));
        }
        ClearStays(n, d);
      }
    }

    /** The place of the first lane of side `d` of node `n` in the order of the node pass. */
    function FirstTurn(n: Node, d: Direction): nat {
      Rank(InLane(n, d, Straight))
    }

    /** Lane `k` conflicts with another side of its own node: three lanes that all come later, or all before. */
    lemma ConflictTurns(k: nat)
      requires k < 48
      ensures ConflictKnown(k)
    {
      LanePlaceRank(k);
    }

    /** `_tick_intersections`: every lane of every node.  Nobody enters a lane during this pass.
        `passed` lists, lane by lane, the vehicles let through by the right-on-red check: exactly those
        that the rule allows by the state that the lane's turn finds. */
    method TickIntersections(dt: real) returns (ghost passed: seq<set<Vehicle>>)
      requires Valid() && dt >= 0.0
      modifies this`cells, this`trips, this`exits, this`left, fleet
      ensures Valid() && old(exits) <= exits && |passed| == 48
      ensures forall v :: v in fleet ==>
                if old(v.state) != ExitedNetwork && old(v.place).InLane?
                then LaneTurned(v, old(v.place), old(v.position), old(v.state == BlockedAtExit), passed, dt)
                else unchanged(v)
      ensures forall k: nat, v :: k < 48 && v in fleet ==>
                var p := LanePlace(k);
                (v in passed[k] <==>
                  && v in old(At(p))
                  && LetThrough(p, old(v.state == BlockedAtExit), old(v.position), v.priority, FoundClear(p, old(ClearAhead(p)))))
    {
      hide Inv, LaneStepped, LanePlace, Rank, ColorAt, Clear, LetThrough, FirstTurn, AllowedIf;
      EveryLaneTurn();
      forall k: nat | k < 48
        ensures forall v :: v in fleet ==> (v in At(LanePlace(k)) <==> LaneTurn(v) == k)
        ensures forall v :: v in fleet && LaneTurn(v) == k ==> LanePlace(k) == v.place
      {
        ListedByLane(k);
      }
      passed := [];
      ghost var clear: seq<bool> := [];
      for k := 0 to 48
        invariant Valid() && old(exits) <= exits && |passed| == k
        invariant forall v :: v in fleet ==>
                    var turn := old(LaneTurn(v));
                    if turn < k
                    then LaneStepped(v, LanePlace(turn), old(v.position), old(v.state == BlockedAtExit), ColorOfLane(turn), v in passed[turn], dt)
                    else unchanged(v)
        invariant forall j: nat :: k <= j < 48 ==> At(LanePlace(j)) == old(At(LanePlace(j)))
        invariant |clear| == k && forall j: nat :: j < k ==> passed[j] == old(AllowedIf(LanePlace(j), clear[j]))
        invariant forall n, d :: k <= FirstTurn(n, d) ==> Clear(n, d) == old(Clear(n, d))
        invariant forall j: nat :: j < k ==> ConflictKnown(j) && clear[j] == FoundClear(LanePlace(j), old(ClearAhead(LanePlace(j))))
      {
        ConflictTurns(k);
        AllowedStays(LanePlace(k), ClearAhead(LanePlace(k)));
        clear, passed := clear + [ClearAhead(LanePlace(k))], passed + [Allowed(LanePlace(k))];
        TakeTurn(k, dt);
      }
      forall k: nat, v | k < 48 && v in fleet
        ensures var p := LanePlace(k);
                v in passed[k] <==>
                  && v in old(At(p))
                  && LetThrough(p, old(v.state == BlockedAtExit), old(v.position), v.priority, FoundClear(p, old(ClearAhead(p))))
      {
        AllowedMember(LanePlace(k), clear[k], v);
      }
    }

    twostate lemma AllowedMember(new p: Place, new clear: bool, v: Vehicle)
      requires p.InLane? && clocks == old(clocks)
      ensures v in old(AllowedIf(p, clear)) <==>
                v in old(At(p)) && LetThrough(p, old(v.state == BlockedAtExit), old(v.position), v.priority, clear)
    {
    }

    /** Lane `k` takes its turn. */
    method TakeTurn(k: nat, dt: real)
      requires k < 48 && Valid() && dt >= 0.0
      modifies this`cells, this`trips, this`exits, this`left, fleet
      ensures Valid() && old(exits) <= exits
      ensures forall j: nat :: j < 48 && j != k ==> At(LanePlace(j)) == old(At(LanePlace(j)))
      ensures forall v :: v in fleet ==>
                if v in old(At(LanePlace(k)))
                then LaneStepped(v, LanePlace(k), old(v.position), old(v.state == BlockedAtExit), ColorOfLane(k), v in old(Allowed(LanePlace(k))), dt)
                else unchanged(v)
      ensures forall n, d :: n != LanePlace(k).node || d != LanePlace(k).dir ==> Clear(n, d) == old(Clear(n, d))
    {
      hide Inv, LaneStepped, LanePlace, ColorAt, HasLeft, Clear, Allowed;
      forall j: nat | j < 48 && j != k ensures LanePlace(j) != LanePlace(k) {
        LanePlaceRank(j);
        LanePlaceRank(k);
      }
      Apart(LanePlace(k));
      TickLane(LanePlace(k), dt);
      ClearElsewhere(LanePlace(k));
    }

    predicate ConflictKnown(k: nat)
      requires k < 48
    {
      var p := LanePlace(k); var c := RightOnRedConflict(p.dir);
      && FirstTurn(p.node, p.dir) <= k < FirstTurn(p.node, p.dir) + 3
      && if DirRank(c) < DirRank(p.dir) then FirstTurn(p.node, c) + 3 <= k else k < FirstTurn(p.node, c)
    }

    function ColorOfLane(k: nat): Color
      requires k < 48
      reads this`clocks
    {
      ColorAt(LanePlace(k).node, LanePlace(k).dir)
    }

    /** The vehicle took its turn in lane `p`. */
    ghost predicate LaneTurned(v: Vehicle, p: Place, from: real, wasBlocked: bool, passed: seq<set<Vehicle>>, dt: real)
      requires |passed| == 48 && dt >= 0.0
      reads v, this`clocks
    {
      p.InLane? && Rank(p) < 48 && LanePlace(Rank(p)) == p
      && LaneStepped(v, p, from, wasBlocked, ColorAt(p.node, p.dir), v in passed[Rank(p)], dt)
    }

    lemma EveryLaneTurn()
      requires Valid()
      ensures forall v :: v in fleet && v.state != ExitedNetwork && v.place.InLane? ==>
                LaneTurn(v) == Rank(v.place) < 48 && LanePlace(Rank(v.place)) == v.place
    {
      hide Roster, LeftOk, LogOk, LoadsOk, LanePlace, Rank;
      forall v | v in fleet && v.state != ExitedNetwork && v.place.InLane?
        ensures Rank(v.place) < 48 && LanePlace(Rank(v.place)) == v.place
      {
        RankPlace(v.place);
      }
    }

    // ----- one simulation tick -----

    method AdvanceTime(dt: real)
      requires Valid() && dt >= 0.0
      modifies this`simTime
      ensures Valid() && simTime == old(simTime) + dt
    {
      hide Roster, LeftOk, LogOk, LoadsOk, Sum, Vehicle.RouteOk, Vehicle.Settled;
      simTime := simTime + dt;
    }

    method TickClocks(dt: real)
      requires Valid()
      modifies this`clocks
      ensures Valid()
      ensures forall n :: IsIntersection(n) ==> ClockOf(n) == TickClock(old(ClockOf(n)), dt)
    {
      hide Inv, TickClock, Initial;
      for k := 0 to 4
        invariant Valid()
        invariant forall j :: 0 <= j < k ==> ClockOf(INTERSECTIONS[j]) == TickClock(old(ClockOf(INTERSECTIONS[j])), dt)
        invariant forall j :: k <= j < 4 ==> ClockOf(INTERSECTIONS[j]) == old(ClockOf(INTERSECTIONS[j]))
      {
        clocks := clocks[INTERSECTIONS[k] := TickClock(ClockOf(INTERSECTIONS[k]), dt)];
      }
      assert forall n :: IsIntersection(n) ==> n == INTERSECTIONS[0] || n == INTERSECTIONS[1] || n == INTERSECTIONS[2] || n == INTERSECTIONS[3];
    }

    /** `tick_simulation`: time, clocks, edges, then nodes.  Whoever was in a lane, or entered one in this
        tick, took its turn there; whoever is still on its edge, or left the network from it, took its
        step there.  `entered` lists, lane by lane, the vehicles that came in, and `passed` those let
        through by the right-on-red check: exactly those that the rule allows. */
    method TickSimulation(dt: real) returns (ghost passed: seq<set<Vehicle>>, ghost entered: seq<set<Vehicle>>)
      requires Valid() && dt >= 0.0
      modifies this`simTime, this`clocks, this`cells, this`trips, this`exits, this`left, fleet
      ensures Valid() && simTime == old(simTime) + dt && old(exits) <= exits && |passed| == |entered| == 48
      ensures forall n :: IsIntersection(n) ==> Preempted(n, TickClock(old(ClockOf(n)), dt), old(UrgentEdges()))
      ensures forall v :: v in fleet && old(v.state) != ExitedNetwork && old(v.place).InLane? ==>
                LaneTurned(v, old(v.place), old(v.position), old(v.state == BlockedAtExit), passed, dt)
      ensures forall v :: v in fleet && old(v.state) != ExitedNetwork && old(v.place).OnEdge? ==>
                if v.place == old(v.place) then EdgeStepped(v, v.place.edge, old(v.position), old(v.state == BlockedAtEntry), dt)
                else exists k: nat :: k < 48 && v in entered[k]
      ensures forall k: nat, v :: k < 48 && v in entered[k] ==>
                && v in fleet && old(v.state) != ExitedNetwork && LeadsTo(old(v.place), LanePlace(k))
                && LaneTurned(v, LanePlace(k), 0.0, false, passed, dt)
      ensures forall k: nat, v :: k < 48 && v in fleet ==>
                var p := LanePlace(k); var clear := FoundClear(p, old(ClearAhead(p)));
                (v in passed[k] <==>
                  || (v in old(At(p)) && LetThrough(p, old(v.state == BlockedAtExit), old(v.position), v.priority, clear))
                  || (v in entered[k] && LetThrough(p, false, 0.0, v.priority, clear)))
      ensures forall v :: v in fleet && old(v.state) == ExitedNetwork ==> unchanged(v)
      ensures forall v :: v in fleet && v.state != ExitedNetwork && v.place.InLane? ==>
                v.position < EXIT_POINT && RedRespected(v, passed)
      ensures forall u, v :: u in fleet && v in fleet && CrossesOnSignal(u, passed) && CrossesOnSignal(v, passed) ==>
                u.place.node == v.place.node ==> SameRoad(u.place.dir, v.place.dir)
    {
      hide Inv, TickClock, LanePlace, EdgeStepped, LaneTurned, ColorAt, Rank, LetThrough, Clear, LeadsTo, Preempted;
      NoLoops();
      entered := DriveEdges(dt);
      forall v | v in fleet && old(v.state) != ExitedNetwork && old(v.place).OnEdge?
        ensures v.place == old(v.place) || (v.state == Moving && v.place.InLane? && v.place.node == old(v.place).edge.to)
      {
        EndsUp(v, old(v.place).edge, old(v.position), old(v.state == BlockedAtEntry), dt);
      }
      label Between:
      passed := TickIntersections(dt);
      InLaneFacts();
      forall v | v in fleet && old@Between(v.state) != ExitedNetwork && old@Between(v.place).InLane?
        ensures v.state != ExitedNetwork && v.place.InLane? ==> RedRespected(v, passed)
        ensures v.place.OnEdge? ==> v.place.edge.from == old@Between(v.place).node
      {
        AfterTurn(v, old@Between(v.place), old@Between(v.position), old@Between(v.state == BlockedAtExit), passed, dt);
      }
      forall k: nat, v | k < 48 && v in entered[k]
        ensures v in fleet && old(v.state) != ExitedNetwork && LeadsTo(old(v.place), LanePlace(k))
        ensures LaneTurned(v, LanePlace(k), 0.0, false, passed, dt)
      {
        assert old@Between(v.place) == LanePlace(k) && old@Between(v.state) == Moving && old@Between(v.position) == 0.0;
      }
      forall u, v | u in fleet && v in fleet && CrossesOnSignal(u, passed) && CrossesOnSignal(v, passed) && u.place.node == v.place.node
        ensures SameRoad(u.place.dir, v.place.dir)
      {
        OneRoadCrosses(u, v, passed);
      }
    }

    /** Past the stop line of a node on the signal alone: without priority, not held at the exit, and not
        by the right-on-red rule. */
    ghost predicate CrossesOnSignal(v: Vehicle, passed: seq<set<Vehicle>>)
      requires |passed| == 48
      reads v
    {
      && v.state != ExitedNetwork && v.place.InLane? && Rank(v.place) < 48 && v.position > STOP_LINE
      && !v.priority && v.state != BlockedAtExit && v !in passed[Rank(v.place)]
    }

    /** Such vehicles are never on crossing roads. */
    lemma OneRoadCrosses(u: Vehicle, v: Vehicle, passed: seq<set<Vehicle>>)
      requires |passed| == 48 && CrossesOnSignal(u, passed) && CrossesOnSignal(v, passed)
      requires RedRespected(u, passed) && RedRespected(v, passed) && u.place.node == v.place.node
      ensures SameRoad(u.place.dir, v.place.dir)
    {
      OneRoadAtATime(ClockOf(u.place.node).phase, u.place.dir, v.place.dir);
    }

    /** The first half of a tick: time, clocks and edges, with the newcomers of each lane. */
    method DriveEdges(dt: real) returns (ghost entered: seq<set<Vehicle>>)
      requires Valid() && dt >= 0.0
      modifies this`simTime, this`clocks, this`cells, this`trips, this`exits, this`left, fleet
      ensures Valid() && simTime == old(simTime) + dt && old(exits) <= exits && |entered| == 48
      ensures forall n :: IsIntersection(n) ==> Preempted(n, TickClock(old(ClockOf(n)), dt), old(UrgentEdges()))
      ensures forall v :: v in fleet ==>
                if old(v.state) != ExitedNetwork && old(v.place).OnEdge?
                then EdgeStepped(v, old(v.place).edge, old(v.position), old(v.state == BlockedAtEntry), dt) && StaysOrEnters(v, old(v.place), entered)
                else unchanged(v)
      ensures forall k: nat, v :: k < 48 ==> (v in At(LanePlace(k)) <==> v in old(At(LanePlace(k))) || v in entered[k])
      ensures forall k: nat, v :: k < 48 && v in entered[k] ==>
                v in fleet && old(v.state) != ExitedNetwork && JustEntered(v, LanePlace(k), old(v.place))
      ensures forall k: nat :: k < 48 ==> ClearAhead(LanePlace(k)) == old(ClearAhead(LanePlace(k)))
      ensures forall k: nat, v :: k < 48 && v in old(At(LanePlace(k))) ==> v in fleet && unchanged(v)
    {
      hide Inv, TickClock, LanePlace, EdgeStepped, ClockOf, Clear, JustEntered, Preempted, Rank, LaneLists, Newcomers, UrgentEdges;
      ghost var before := LaneLists(48);
      AdvanceTime(dt);
      TickClocks(dt);
      forall k: nat | k < 48 ensures ClearAhead(LanePlace(k)) == old(ClearAhead(LanePlace(k))) {
        ClearStays(LanePlace(k).node, RightOnRedConflict(LanePlace(k).dir));
      }
      label Ready:
      TickEdges(dt);
      entered := Newcomers(before, LaneLists(48));
      forall k: nat | k < 48
        ensures forall v :: v in At(LanePlace(k)) && v !in old(At(LanePlace(k))) ==>
                  v in fleet && old(v.state) != ExitedNetwork && JustEntered(v, LanePlace(k), old(v.place))
        ensures forall v :: v in old(At(LanePlace(k))) ==> v in fleet && unchanged(v)
        ensures ClearAhead(LanePlace(k)) == old(ClearAhead(LanePlace(k)))
      {
        Entrants@Ready(LanePlace(k), dt);
        ClearAfterEdges@Ready(LanePlace(k).node, RightOnRedConflict(LanePlace(k).dir), dt);
      }
      EveryLaneTurn();
      forall v | v in fleet && old(v.state) != ExitedNetwork && old(v.place).OnEdge? ensures StaysOrEnters(v, old(v.place), entered) {
        EndsUp(v, old(v.place).edge, old(v.position), old(v.state == BlockedAtEntry), dt);
        if v.place != old(v.place) {
          InOwnList(v);
          assert v in entered[Rank(v.place)];
        }
      }
    }

    lemma EndsUp(v: Vehicle, e: EdgeId, from: real, wasBlocked: bool, dt: real)
      requires dt >= 0.0 && EdgeStepped(v, e, from, wasBlocked, dt)
      ensures v.place == OnEdge(e) || (v.state == Moving && v.place.InLane? && v.place.node == e.to)
    {
    }

    lemma InOwnList(v: Vehicle)
      requires Valid() && v in fleet && v.state != ExitedNetwork
      ensures v in At(v.place)
    {
    }

    /** The lists of the first `n` lanes in the order of the node pass. */
    ghost function LaneLists(n: nat): (lists: seq<seq<Vehicle>>)
      requires n <= 48
      reads this`cells
      ensures |lists| == n && forall k: nat :: k < n ==> lists[k] == At(LanePlace(k))
    {
      if n == 0 then [] else LaneLists(n - 1) + [At(LanePlace(n - 1))]
    }

    static ghost function Newcomers(before: seq<seq<Vehicle>>, after: seq<seq<Vehicle>>): (vs: seq<set<Vehicle>>)
      requires |before| == |after|
      ensures |vs| == |after| && forall k: nat :: k < |vs| ==> vs[k] == set v | v in after[k] && v !in before[k]
    {
      seq(|after|, k requires 0 <= k < |after| => set v | v in after[k] && v !in before[k])
    }

    /** Still placed on its edge, or among the newcomers of a lane. */
    ghost predicate StaysOrEnters(v: Vehicle, from: Place, entered: seq<set<Vehicle>>)
      requires |entered| == 48
      reads v
    {
      v.place == from || exists k: nat :: k < 48 && v in entered[k]
    }

    /** An edge leads to the lanes of the side on which it enters its node. */
    static predicate LeadsTo(from: Place, p: Place)
    {
      p.InLane? && from.OnEdge? && p.node == from.edge.to && p.dir == ApproachOf(from.edge)
    }

    /** Past the stop line of a red lane there are only priority vehicles, vehicles held at the exit,
        and vehicles that passed the right-on-red check in this tick. */
    ghost predicate RedRespected(v: Vehicle, passed: seq<set<Vehicle>>)
      requires |passed| == 48 && v.place.InLane?
      reads v, this`clocks
    {
      Rank(v.place) < 48
      && (ShowsRed(v.place) && v.position > STOP_LINE ==>
            v.priority || v.state == BlockedAtExit || v in passed[Rank(v.place)])
    }

    lemma AfterTurn(v: Vehicle, p: Place, from: real, wasBlocked: bool, passed: seq<set<Vehicle>>, dt: real)
      requires |passed| == 48 && dt >= 0.0 && LaneTurned(v, p, from, wasBlocked, passed, dt)
      ensures v.state != ExitedNetwork && v.place.InLane? ==> RedRespected(v, passed)
      ensures v.place.OnEdge? ==> p.InLane? && v.place.edge.from == p.node
    {
    }

    lemma NoLoops()
      requires Valid()
      ensures forall v :: v in fleet && v.state != ExitedNetwork && v.place.OnEdge? ==> v.place.edge.from != v.place.edge.to
    {
      hide Roster, LeftOk, LogOk, LoadsOk;
      forall v | v in fleet && v.state != ExitedNetwork && v.place.OnEdge? ensures v.place.edge.from != v.place.edge.to {
        EdgeTableShape(v.route[v.index], v.route[v.index + 1]);
      }
    }

    predicate ShowsRed(p: Place)
      requires p.InLane?
      reads this`clocks
    {
      ColorAt(p.node, p.dir).Red?
    }

    lemma InLaneFacts()
      requires Valid()
      ensures forall v :: v in fleet && v.state != ExitedNetwork && v.place.InLane? ==> v.position < EXIT_POINT
    {
    }

    // ----- spawning -----

    /** `tick_spawn`: the number of requests per boundary is any number. */
    method TickSpawn() returns (spawned: nat)
      requires Valid()
      modifies this`cells, this`fleet, this`nextId
      ensures Valid() && old(fleet) <= fleet && fresh(fleet - old(fleet))
      ensures |fleet| == |old(fleet)| + spawned
      ensures forall v :: v in fleet - old(fleet) ==> JustSpawned(v)
      ensures BacksGrew(old(cells), cells)
    {
      hide Inv, JustSpawned, BacksGrew;
      spawned := 0;
      BacksStay(cells);
      for k := 0 to 5
        invariant Valid() && old(fleet) <= fleet && fresh(fleet - old(fleet))
        invariant |fleet| == |old(fleet)| + spawned
        invariant forall v :: v in fleet - old(fleet) ==> JustSpawned(v)
        invariant BacksGrew(old(cells), cells)
      {
        ghost var before := cells;
        var n: nat :| 0 <= n;
        var more := SpawnAt(BOUNDARY_NODES[k], n);
        spawned := spawned + more;
        BacksGrewOn(old(cells), before, cells);
      }
    }

    /** The requests of one boundary node. */
    method SpawnAt(b: Node, n: nat) returns (spawned: nat)
      requires Valid() && b in BOUNDARY_NODES
      modifies this`cells, this`fleet, this`nextId
      ensures Valid() && old(fleet) <= fleet && fresh(fleet - old(fleet))
      ensures |fleet| == |old(fleet)| + spawned && spawned <= n
      ensures forall v :: v in fleet - old(fleet) ==> JustSpawned(v)
      ensures BacksGrew(old(cells), cells)
    {
      hide Inv, JustSpawned, BacksGrew;
      spawned := 0;
      BacksStay(cells);
      for i := 0 to n
        invariant Valid() && old(fleet) <= fleet && fresh(fleet - old(fleet))
        invariant |fleet| == |old(fleet)| + spawned && spawned <= i
        invariant forall v :: v in fleet - old(fleet) ==> JustSpawned(v)
        invariant BacksGrew(old(cells), cells)
      {
        ghost var before := cells;
        var done, born := SpawnOne(b);
        spawned := spawned + if done then 1 else 0;
        BacksGrewOn(old(cells), before, cells);
      }
    }

    /** Edge lists only gain vehicles at the back, and lane lists stay. */
    static ghost predicate BacksGrew(before: map<Place, seq<Vehicle>>, after: map<Place, seq<Vehicle>>) {
      forall q: Place :: ListIn(before, q) <= ListIn(after, q) && (q.InLane? ==> ListIn(after, q) == ListIn(before, q))
    }

    static lemma BacksStay(cells: map<Place, seq<Vehicle>>)
      ensures BacksGrew(cells, cells)
    {
    }

    static lemma BacksGrewOn(a: map<Place, seq<Vehicle>>, b: map<Place, seq<Vehicle>>, c: map<Place, seq<Vehicle>>)
      requires BacksGrew(a, b) && BacksGrew(b, c)
      ensures BacksGrew(a, c)
    {
    }

    /** At the start of a shortest path that leaves a boundary node, with nothing recorded yet. */
    ghost predicate JustSpawned(v: Vehicle)
      reads v, this`simTime
    {
      && v.state == Transit && v.index == 0 && v.position == 0.0 && v.segments == map[]
      && v.spawnedAt == simTime && v.segEnter == simTime
      && |v.route| > 1 && v.route[0] in BOUNDARY_NODES && v.place == OnEdge(EdgeId(v.route[0], v.route[1]))
      && InteriorIsIntersections(v.route)
      && v.route == ComputeRoute(v.route[0], v.dest)
    }

    /** One request: destination, thinning, class, priority and speed are any choices. */
    method SpawnOne(b: Node) returns (done: bool, ghost born: Vehicle?)
      requires Valid() && b in BOUNDARY_NODES
      modifies this`cells, this`fleet, this`nextId
      ensures Valid()
      ensures !done ==> fleet == old(fleet) && cells == old(cells)
      ensures done ==> born != null && fresh(born) && fleet == old(fleet) + {born} && JustSpawned(born)
      ensures BacksGrew(old(cells), cells)
      ensures done ==> var q := born.place; cells == old(cells)[q := old(At(q)) + [born]] && !old(EdgeIsFull(q.edge, 1.0))
    {
      hide Inv, ActivePcu, ComputeRoute, Lookup;
      done, born := false, null;
      var dest: Node := *;
      var kept: bool := *;
      var route := ComputeRoute(b, dest);
      ComputeRouteIsShortest(b, dest);
      SpawnRoutes(b, dest);
      if |route| < 2 || !kept {
        return;
      }
      var e := EdgeId(route[0], route[1]);
      if EdgeIsFull(e, 1.0) {
        return;
      }
      var c: VehicleClass := *;
      var priority: bool := *;
      var speed: real := *;
      var v := new Vehicle(nextId, route, c, priority, Max(10.0, speed), simTime);
      nextId := nextId + 1;
      FleetListed();
      Admit(v, e);
      done, born := true, v;
    }

    lemma FleetListed()
      requires Valid()
      ensures forall p: Place, v: Vehicle :: v in At(p) ==> v in fleet
    {
    }

    method Admit(v: Vehicle, e: EdgeId)
      requires Valid() && v !in fleet && Newborn(v) && v.place == OnEdge(e) && !EdgeIsFull(e, 1.0)
      modifies this`cells, this`fleet
      ensures Valid() && fleet == old(fleet) + {v}
      ensures cells == old(cells)[OnEdge(e) := old(At(OnEdge(e))) + [v]]
    {
      hide Inv, Newborn, EdgeIsFull, Vehicle.Core, Vehicle.Settled;
      NewbornFacts(v);
      Insert(v);
    }

    /** A vehicle joins the back of the list of its place, which is not a full edge. */
    method Insert(v: Vehicle)
      requires Valid() && v !in fleet && v.state != ExitedNetwork && v.Core(simTime, rounding) && v.Settled()
      requires v.place.OnEdge? ==> !EdgeIsFull(v.place.edge, 1.0)
      modifies this`cells, this`fleet
      ensures Valid() && fleet == old(fleet) + {v}
      ensures cells == old(cells)[v.place := old(At(v.place)) + [v]]
    {
      hide Roster, FleetOk, LeftOk, LoadsOk, LogOk, ActivePcu, Load, Vehicle.Core, Vehicle.Settled;
      var q := v.place;
      AnyList(OnEdge(EDGE_IDS[0]), InLane(A, North, Straight));
      if q.OnEdge? {
        NoneExited(InLane(A, North, Straight), [], q);
      }
      cells := cells[q := At(q) + [v]];
      fleet := fleet + {v};
      LoadsGrow(v, q);
      Joined(v, q);
    }

    /** A vehicle that is in no list joins the end of its own. */
    twostate lemma Joined(v: Vehicle, new q: Place)
      requires old(Roster(OnEdge(EDGE_IDS[0]), [])) && old(FleetOk(null)) && old(LeftOk())
      requires v !in old(fleet) && fleet == old(fleet) + {v} && left == old(left) && simTime == old(simTime)
      requires forall u :: u in old(fleet) ==> unchanged(u)
      requires v.state != ExitedNetwork && v.Core(simTime, rounding) && v.Settled()
      requires v.place == q && cells == old(cells)[q := old(At(q)) + [v]]
      ensures Roster(OnEdge(EDGE_IDS[0]), []) && FleetOk(null) && LeftOk()
    {
      hide Vehicle.Core, Vehicle.Settled;
      assert forall p: Place :: p != q ==> At(p) == old(At(p));
      assert At(q) == old(At(q)) + [v];
      assert v !in old(At(q));
      forall p: Place, u: Vehicle | u in At(p) ensures u in fleet && u.state != ExitedNetwork && u.place == p {
        if u != v {
          assert u in old(At(p)) && old(u.place) == p;
        }
      }
      forall u | u in fleet && u.state != ExitedNetwork ensures u in At(u.place) {
        if u != v {
          assert u in old(At(u.place));
        }
      }
      forall u | u in old(fleet) ensures u.Core(simTime, rounding) && u.Settled() {
        assert old(u.Core(simTime, rounding)) && old(u.Settled());
      }
    }

    ghost predicate Newborn(v: Vehicle)
      reads v, this`simTime
    {
      && v.state == Transit && v.index == 0 && v.position == 0.0 && v.segments == map[] && v.vFree >= 10.0
      && v.spawnedAt == simTime && v.segEnter == simTime && v.closed == 0
      && |v.route| > 1 && v.RouteOk() && v.place == OnEdge(EdgeId(v.route[0], v.route[1]))
    }

    lemma NewbornFacts(v: Vehicle)
      requires Newborn(v)
      ensures v.Core(simTime, rounding) && v.Settled() && v.state != ExitedNetwork
    {
      EdgeTableShape(v.route[0], v.route[1]);
    }

    /** The effect of `set_scenario` on what the ticks read. */
    method SetScenario(w: Weather, blocked: map<Node, Direction>)
      requires Valid()
      modifies this`weather, this`incident
      ensures Valid() && weather == w && incident == blocked
    {
      weather, incident := w, blocked;
    }

    lemma LoadIsCurrent(e: EdgeId)
      requires Valid()
      ensures EdgeCurrentPcu(e) == Load(At(OnEdge(e)))
    {
      AnyList(OnEdge(EDGE_IDS[0]), InLane(A, North, Straight));
      LoadIsCurrentWithin(InLane(A, North, Straight), [], e);
    }

    lemma LoadIsCurrentWithin(cur: Place, gone: seq<Vehicle>, e: EdgeId)
      requires Inv(cur, gone, null) && cur != OnEdge(e)
      ensures EdgeCurrentPcu(e) == Load(At(OnEdge(e)))
    {
      NoneExited(cur, gone, OnEdge(e));
    }

    // ----- what the invariant says about every reachable state -----

    /** `count_total_vehicles`: the sizes of the lists in `ps`, added up. */
    ghost function CountIn(ps: set<Place>): nat
      reads this`cells
    {
      if ps == {} then 0 else
        var p :| p in ps;
        |At(p)| + CountIn(ps - {p})
    }

    ghost function Standing(ps: set<Place>): set<Vehicle>
      reads this`fleet, fleet`state, fleet`place
    {
      set v | v in fleet && v.state != ExitedNetwork && v.place in ps
    }

    lemma {:induction false} CountIsStanding(ps: set<Place>)
      requires Valid()
      ensures CountIn(ps) == |Standing(ps)|
    {
      hide FleetOk, LeftOk, LogOk, LoadsOk;
      if ps == {} {
        assert Standing(ps) == {};
      } else {
        var p :| p in ps && CountIn(ps) == |At(p)| + CountIn(ps - {p});
        CountIsStanding(ps - {p});
        StandingSplit(ps, p);
      }
    }

    lemma StandingSplit(ps: set<Place>, p: Place)
      requires Valid() && p in ps
      ensures |Standing(ps)| == |At(p)| + |Standing(ps - {p})|
    {
      hide Inv, NoDup;
      Apart(p);
      ListDistinct(OnEdge(EDGE_IDS[0]), [], p);
      DistinctCount(At(p));
      var here := set v | v in At(p);
      StandingAt(p);
      assert Standing(ps) == Standing(ps - {p}) + here;
      assert Standing(ps - {p}) * here == {};
    }

    lemma StandingAt(p: Place)
      requires Valid()
      ensures forall v :: v in fleet ==> (v in At(p) <==> v.state != ExitedNetwork && v.place == p)
    {
      hide FleetOk, LeftOk, LogOk, LoadsOk;
    }

    /** Conservation: every spawned vehicle is standing in the network or has exited, never both,
        and `count_exited_network` reports the exits up to the 2000 kept records. */
    lemma Conservation()
      requires Valid()
      ensures |fleet| == CountIn(ALL_PLACES) + |exits|
      ensures |trips| == if |exits| < TRIP_LIMIT then |exits| else TRIP_LIMIT
    {
      CountIsStanding(ALL_PLACES);
      forall v | v in fleet && v.state != ExitedNetwork ensures v.place in ALL_PLACES {
        PlaceListed(v);
      }
      assert fleet == Standing(ALL_PLACES) + left;
      assert Standing(ALL_PLACES) * left == {};
    }

    lemma PlaceListed(v: Vehicle)
      requires v.RouteOk() && v.Located()
      ensures v.place in ALL_PLACES
    {
      match v.place
      case OnEdge(e) =>
        assert IsEdge(v.route[v.index], v.route[v.index + 1]);
        assert e.from in EVERY_NODE && e.to in EVERY_NODE && e == EdgeId(e.from, e.to);
      case InLane(n, d, l) =>
        assert d in DIRECTION_SET by { match d case North => case South => case East => case West => }
        assert l in LANE_SET by { match l case Straight => case Left => case Right => }
        assert n in EVERY_NODE;
    }

    /** Each vehicle in the network is in exactly one list, exactly once, and that list is the one
        its route says: on an edge the hop it is driving, in a node the node it reached. */
    lemma OneListEach(v: Vehicle)
      requires Valid() && v in fleet && v.state != ExitedNetwork
      ensures forall p: Place :: v in At(p) <==> p == v.place
      ensures forall i, j :: 0 <= i < j < |At(v.place)| ==> !(At(v.place)[i] == v && At(v.place)[j] == v)
      ensures v.index + 1 < |v.route|
      ensures match v.place
              case OnEdge(e) => e == EdgeId(v.route[v.index], v.route[v.index + 1])
              case InLane(n, _, _) => n == v.route[if v.state == BlockedAtExit then v.index else v.index + 1]
      ensures forall q: Place :: v.place == q ==> Within(q, v.position)
    {
      hide LeftOk, LogOk, LoadsOk;
    }

    /** Through any reroutes, a route stays a path of the network with its original destination, so
        no edge lookup along it can fail. */
    lemma LookupsNeverFail(v: Vehicle)
      requires Valid() && v in fleet
      ensures |v.route| > 0 && v.route[|v.route| - 1] == v.dest
      ensures forall i :: 0 <= i < |v.route| - 1 ==> IsEdge(v.route[i], v.route[i + 1])
      ensures v.state != ExitedNetwork && v.place.OnEdge? ==>
                (PredictedExitEdge(v, v.route[v.index + 1]).None? <==> v.index + 2 == |v.route|)
    {
      hide Roster, LeftOk, LogOk, LoadsOk;
    }

    /** At its exit, a vehicle's stored segment times add up to exit time minus spawn time: exactly
        with exact storage, and within half a hundredth per closed segment with rounded storage. */
    lemma SegmentTimesAddUp(i: nat)
      requires Valid() && i < |exits|
      ensures var x := exits[i];
              && x.vehicle in fleet && x.vehicle.state == ExitedNetwork
              && (rounding.Exact? ==> Sum(x.trip.segments) == x.at - x.vehicle.spawnedAt)
              && Abs(Sum(x.trip.segments) - (x.at - x.vehicle.spawnedAt)) <= 0.005 * x.closed as real
    {
      hide Roster, FleetOk, LoadsOk, Sum;
      assert RecordOk(exits[i], rounding);
    }

    /** Every trip ends on its route, at the first boundary node it reaches, at the end, or at the last but
        one node after a block; it ends at its destination exactly when it was not blocked there and no
        boundary node lies inside its route. */
    lemma ExitPlace(i: nat)
      requires Valid() && i < |exits|
      ensures var x := exits[i];
              && EndsAt(x.vehicle.dest, x.route, x.hop, x.blocked)
              && (x.route[x.hop] == x.vehicle.dest <==> !x.blocked && InteriorIsIntersections(x.route))
    {
      hide Roster, FleetOk, LeftOk, LoadsOk, Sum;
      assert RecordOk(exits[i], rounding);
      EndsAtDestinationIff(exits[i].vehicle.dest, exits[i].route, exits[i].hop, exits[i].blocked);
    }

    /** No vehicle exits twice. */
    lemma ExitsOnce(i: nat, j: nat)
      requires Valid() && i < j < |exits|
      ensures exits[i].vehicle != exits[j].vehicle
    {
      hide Roster, FleetOk, LeftOk, LoadsOk, RecordOk;
    }

    /** The stored PCU of an edge stays below its capacity plus the largest vehicle. */
    lemma EdgeNeverOverfull(e: EdgeId)
      requires Valid()
      ensures EdgeCurrentPcu(e) < EdgeMaxPcu(e) + MAX_PCU
    {
      AnyList(OnEdge(EDGE_IDS[0]), InLane(A, North, Straight));
      NoneExited(InLane(A, North, Straight), [], OnEdge(e));
    }

    /** Any run: nobody is lost or duplicated, exits only accumulate, and an exit happens at most
        once per vehicle. */
    method Run(requests: seq<Request>)
      requires Valid() && forall r :: r in requests && r.Tick? ==> r.dt >= 0.0
      modifies this, fleet
      ensures Valid() && old(fleet) <= fleet && fresh(fleet - old(fleet)) && old(exits) <= exits
      ensures |fleet| == CountIn(ALL_PLACES) + |exits|
    {
      hide Inv;
      for i := 0 to |requests|
        invariant Valid() && old(fleet) <= fleet && fresh(fleet - old(fleet)) && old(exits) <= exits
      {
        match requests[i]
        case Spawn =>
          var n := TickSpawn();
        case Tick(dt) =>
          ghost var passed, entered := TickSimulation(dt);
        case Scenario(w, blocked) =>
          SetScenario(w, blocked);
      }
      Conservation();
    }
  }

  // ----- the last hop -----

  /** A vehicle standing at `p` on its way from N1 by A to W1, with A behind it. */
  method AtA(id: nat, c: VehicleClass, p: Place, st: VehicleState, position: real) returns (v: Vehicle)
    requires (p == OnEdge(EdgeId(A, W1)) && st == Transit && 0.0 <= position < 250.0)
             || (p == InLane(A, North, Right) && st == BlockedAtExit && position == EXIT_POINT - 0.01)
    ensures fresh(v) && v.class_ == c && v.place == p && v.state == st && v.index == 1 && v.route == [N1, A, W1] && v.dest == W1
    ensures v.Core(0.0, Exact) && v.Settled() && v.segments == map[]
  {
    v := new Vehicle(id, [N1, A, W1], c, false, 50.0, 0.0);
    v.index, v.place, v.state, v.position := 1, p, st, position;
    assert Sum(v.segments) == 0.0;
  }

  /** Twenty trucks fill the edge from A to W1. */
  method JammedEngine() returns (engine: CityNetworkEngine)
    ensures fresh(engine) && fresh(engine.fleet) && engine.Valid() && engine.rounding == Exact && engine.simTime == 0.0
    ensures engine.exits == [] && Load(engine.At(OnEdge(EdgeId(A, W1)))) == 50.0
  {
    hide CityNetworkEngine.Inv, ActivePcu, Vehicle.Core, Vehicle.Settled, Load;
    engine := new CityNetworkEngine(Exact);
    var q := OnEdge(EdgeId(A, W1));
    EmptyLoad();
    for k := 0 to 20
      invariant fresh(engine) && fresh(engine.fleet) && engine.Valid() && engine.rounding == Exact && engine.simTime == 0.0
      invariant engine.exits == [] && Load(engine.At(q)) == 2.5 * k as real
    {
      engine.LoadIsCurrent(EdgeId(A, W1));
      var truck := AtA(k, Truck, q, Transit, 0.0);
      engine.FleetListed();
      LoadAppend(engine.At(q), truck);
      engine.Insert(truck);
    }
  }

  lemma EmptyLoad()
    ensures Load([]) == 0.0
  {
  }

  /** The counterexample on the engine: a vehicle held at A with only the hop to W1 left, in front of an
      edge that is full, retries and is out of the network, at A, without having driven that edge. */
  method LastHopSkipped() returns (engine: CityNetworkEngine, v: Vehicle)
    ensures fresh(engine) && fresh(v) && engine.EdgeIsFull(EdgeId(A, W1), 1.0)
    ensures v.state == ExitedNetwork && v !in engine.At(OnEdge(EdgeId(A, W1))) && EdgeCtx(EdgeId(A, W1)) !in v.segments
    ensures |engine.exits| == 1
    ensures var x := engine.exits[0]; x.vehicle == v && x.route == [N1, A, W1] && x.hop == 1 && x.blocked
  {
    hide CityNetworkEngine.Inv, ActivePcu, Vehicle.Core, Vehicle.Settled, Load, Vehicle.TimeUpTo, CityNetworkEngine.AtExit;
    engine := JammedEngine();
    var p := InLane(A, North, Right);
    v := AtA(20, Car, p, BlockedAtExit, EXIT_POINT - 0.01);
    engine.Insert(v);
    engine.AnyList(OnEdge(EDGE_IDS[0]), p);
    engine.FleetListed();
    var leaves := engine.RetryExit(v, p, []);
    assert [] + [v] == [v];
    engine.LoadIsCurrentWithin(p, [v], EdgeId(A, W1));
  }
}
