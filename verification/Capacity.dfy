/** Scenario overlays on lanes: `Visualize/actuators/capacity.py`.  Which lanes an overlay targets
    is an input here; what its patches do to them is modelled. */
module Capacity {
  import opened Options
  import opened ResourceState

  datatype Lifecycle = Created | Active | Expired | Removed

  datatype Role = IncomingApproach | DownstreamExit | OtherRole

  /** The registry's settings for one overlay type. */
  datatype Meta = Meta(priority: int, lane0Disallow: bool, otherSpeed: real, speedFactor: real, edgeFactor: real)

  datatype Instance = Instance(kind: OverlayKind, intersection: string, lanes: seq<LaneId>,
                               state: Lifecycle, createdAt: real, expiresAt: Option<real>, priority: int)

  datatype AddError = UnknownType | RoleRequired

  function Max(a: real, b: real): real { if a >= b then a else b }

  /** The patch for the `i`-th target lane, whose captured speed is `base`. */
  function PatchFor(id: OverlayId, kind: OverlayKind, m: Meta, i: nat, base: real): Option<Patch> {
    var closed := Some(Patch(id, kind, m.priority, Some([]), None));
    match kind
    case Accident =>
      if i == 0 && m.lane0Disallow then closed else Some(Patch(id, kind, m.priority, None, Some(m.otherSpeed)))
    case BlockedIntersection =>
      if i == 0 && m.lane0Disallow then closed else Some(Patch(id, kind, m.priority, None, Some(m.otherSpeed)))
    case DownstreamRestriction =>
      if i == 0 && m.lane0Disallow then closed
      else Some(Patch(id, kind, m.priority, None, Some(Max(0.5, base * m.speedFactor))))
    case HeavyRain => Some(Patch(id, kind, m.priority, None, Some(Max(1.0, base * m.edgeFactor))))
    case Emergency => None
  }

  // ----- what a history of additions and removals leaves on one lane -----

  datatype Op =
    | Add(id: OverlayId, kind: OverlayKind, meta: Meta, lanes: seq<LaneId>)
    | Remove(id: OverlayId)

  /** The patches of `lane` after the first `n` target lanes of an addition were patched. */
  function Patched(ps: seq<Patch>, op: Op, lane: LaneId, base: real, n: nat): seq<Patch>
    requires op.Add? && n <= |op.lanes|
  {
    if n == 0 then ps
    else
      var before := Patched(ps, op, lane, base, n - 1);
      if op.lanes[n - 1] != lane then before
      else match PatchFor(op.id, op.kind, op.meta, n - 1, base)
        case Some(p) => Put(before, p)
        case None => before
  }

  function After(ps: seq<Patch>, op: Op, lane: LaneId, base: real): seq<Patch> {
    match op
    case Add(_, _, _, lanes) => Patched(ps, op, lane, base, |lanes|)
    case Remove(id) => Drop(ps, id)
  }

  /** The patches of `lane` after a whole history; `base` is the lane's captured speed. */
  function LanePatches(ops: seq<Op>, lane: LaneId, base: real): seq<Patch> {
    if ops == [] then []
    else After(LanePatches(ops[..|ops| - 1], lane, base), ops[|ops| - 1], lane, base)
  }

  /** The history with everything about overlay `o` left out. */
  function Without(ops: seq<Op>, o: OverlayId): seq<Op> {
    if ops == [] then []
    else
      var rest, last := Without(ops[..|ops| - 1], o), ops[|ops| - 1];
      if last.id == o then rest else rest + [last]
  }

  /** The last thing that happened to `id` was an addition. */
  function IsActive(ops: seq<Op>, id: OverlayId): bool {
    if ops == [] then false
    else
      var last := ops[|ops| - 1];
      if last.id == id then last.Add? else IsActive(ops[..|ops| - 1], id)
  }

  lemma PatchesAppend(ops: seq<Op>, op: Op, lane: LaneId, base: real)
    ensures LanePatches(ops + [op], lane, base) == After(LanePatches(ops, lane, base), op, lane, base)
    ensures forall id :: IsActive(ops + [op], id) == if op.id == id then op.Add? else IsActive(ops, id)
    ensures forall o :: Without(ops + [op], o) == if op.id == o then Without(ops, o) else Without(ops, o) + [op]
  {
    assert (ops + [op])[..|ops|] == ops;
  }

  lemma HeadIn(ps: seq<Patch>)
    ensures ps == [] || ps[0] in ps
  {
  }

  lemma PatchOwner(op: Op, i: nat, base: real)
    requires op.Add? && PatchFor(op.id, op.kind, op.meta, i, base).Some?
    ensures PatchFor(op.id, op.kind, op.meta, i, base).value.overlay == op.id
  {
  }

  lemma {:induction false} PatchedSpec(ps: seq<Patch>, op: Op, lane: LaneId, base: real, n: nat)
    requires op.Add? && n <= |op.lanes| && DistinctIds(ps)
    ensures DistinctIds(Patched(ps, op, lane, base, n))
    ensures forall q :: q in Patched(ps, op, lane, base, n) ==> q in ps || q.overlay == op.id
    ensures Drop(Patched(ps, op, lane, base, n), op.id) == Drop(ps, op.id)
    ensures lane !in op.lanes ==> Patched(ps, op, lane, base, n) == ps
  {
    hide Put, Drop, DistinctIds, PatchFor;
    if n > 0 {
      PatchedSpec(ps, op, lane, base, n - 1);
      var before := Patched(ps, op, lane, base, n - 1);
      var p := PatchFor(op.id, op.kind, op.meta, n - 1, base);
      if op.lanes[n - 1] == lane && p.Some? {
        PatchOwner(op, n - 1, base);
        PutSpec(before, p.value);
        DropAfterPut(before, p.value, op.id);
      }
    }
  }

  lemma {:induction false} PatchedWithoutOther(ps: seq<Patch>, op: Op, lane: LaneId, base: real, n: nat, o: OverlayId)
    requires op.Add? && n <= |op.lanes| && DistinctIds(ps) && op.id != o
    ensures Drop(Patched(ps, op, lane, base, n), o) == Patched(Drop(ps, o), op, lane, base, n)
  {
    hide Put, Drop, DistinctIds, PatchFor;
    if n > 0 {
      PatchedWithoutOther(ps, op, lane, base, n - 1, o);
      PatchedSpec(ps, op, lane, base, n - 1);
      var p := PatchFor(op.id, op.kind, op.meta, n - 1, base);
      if op.lanes[n - 1] == lane && p.Some? {
        PatchOwner(op, n - 1, base);
        DropAfterPut(Patched(ps, op, lane, base, n - 1), p.value, o);
      }
    } else {
      NonePatched(ps, op, lane, base);
      NonePatched(Drop(ps, o), op, lane, base);
    }
  }

  lemma NonePatched(ps: seq<Patch>, op: Op, lane: LaneId, base: real)
    requires op.Add?
    ensures Patched(ps, op, lane, base, 0) == ps
  {
  }

  /** Every patch on a lane belongs to an overlay that is active. */
  lemma {:induction false} PatchesAreActive(ops: seq<Op>, lane: LaneId, base: real)
    ensures DistinctIds(LanePatches(ops, lane, base))
    ensures forall p :: p in LanePatches(ops, lane, base) ==> IsActive(ops, p.overlay)
  {
    if ops != [] {
      var rest, last := ops[..|ops| - 1], ops[|ops| - 1];
      PatchesAreActive(rest, lane, base);
      var ps := LanePatches(rest, lane, base);
      match last
      case Add(_, _, _, lanes) => PatchedSpec(ps, last, lane, base, |lanes|);
      case Remove(id) => DropSpec(ps, id);
    }
  }

  /** Leaving an overlay out of the history, or only taking it off at the end, is the same. */
  lemma {:induction false} DropIsWithout(ops: seq<Op>, lane: LaneId, base: real, o: OverlayId)
    ensures Drop(LanePatches(ops, lane, base), o) == LanePatches(Without(ops, o), lane, base)
  {
    if ops != [] {
      var rest, last := ops[..|ops| - 1], ops[|ops| - 1];
      assert ops == rest + [last];
      DropIsWithout(rest, lane, base, o);
      PatchesAreActive(rest, lane, base);
      PatchesAppend(rest, last, lane, base);
      var ps := LanePatches(rest, lane, base);
      hide LanePatches, Without, Drop, Patched, IsActive;
      if last.id != o {
        PatchesAppend(Without(rest, o), last, lane, base);
      }
      match last
      case Add(id, _, _, lanes) =>
        PatchedSpec(ps, last, lane, base, |lanes|);
        if id != o {
          PatchedWithoutOther(ps, last, lane, base, |lanes|, o);
        }
      case Remove(id) =>
        DropCommutes(ps, id, o);
        DropTwice(ps, o);
    }
  }

  lemma {:induction false} DropTwice(ps: seq<Patch>, o: OverlayId)
    ensures Drop(Drop(ps, o), o) == Drop(ps, o)
  {
    DropSpec(ps, o);
    DropSpec(Drop(ps, o), o);
  }

  /** The composed values of a lane with captured values `original` after a history. */
  function LaneValues(ops: seq<Op>, lane: LaneId, original: Record): (seq<string>, real) {
    Composed(original.(patches := LanePatches(ops, lane, original.maxSpeed)))
  }

  /** With no overlay active, every lane has its captured values. */
  lemma NothingActive(ops: seq<Op>, lane: LaneId, original: Record)
    requires forall id :: !IsActive(ops, id)
    ensures LaneValues(ops, lane, original) == (original.allowed, original.maxSpeed)
  {
    PatchesAreActive(ops, lane, original.maxSpeed);
    var ps := LanePatches(ops, lane, original.maxSpeed);
    if ps != [] {
      assert ps[0] in ps;
    }
    ComposedSpec(original.(patches := ps));
  }

  lemma {:induction false} UntouchedLane(ops: seq<Op>, lane: LaneId, base: real)
    requires forall op :: op in ops && op.Add? ==> lane !in op.lanes
    ensures LanePatches(ops, lane, base) == []
  {
    if ops != [] {
      var rest, last := ops[..|ops| - 1], ops[|ops| - 1];
      assert last in ops && forall op :: op in rest ==> op in ops;
      UntouchedLane(rest, lane, base);
      if last.Add? {
        PatchedSpec([], last, lane, base, |last.lanes|);
      }
    }
  }

  // ----- what an overlay does to a lane -----

  predicate NoRepeats(lanes: seq<LaneId>) {
    forall i, j :: 0 <= i < j < |lanes| ==> lanes[i] != lanes[j]
  }

  lemma {:induction false} TargetPatched(ps: seq<Patch>, op: Op, i: nat, base: real, n: nat)
    requires op.Add? && NoRepeats(op.lanes) && i < |op.lanes| && n <= |op.lanes|
    ensures Patched(ps, op, op.lanes[i], base, n) ==
            if n <= i then ps
            else match PatchFor(op.id, op.kind, op.meta, i, base) case Some(p) => Put(ps, p) case None => ps
  {
    hide Put, PatchFor;
    if n > 0 {
      TargetPatched(ps, op, i, base, n - 1);
    }
  }

  /** The lane's values right after `op`, and what the other overlays alone would make of it. */
  ghost predicate Topmost(ops: seq<Op>, op: Op, lane: LaneId, base: real)
    requires op.Add?
  {
    forall p :: p in LanePatches(ops, lane, base) && p.overlay != op.id ==> p.priority < op.meta.priority
  }

  /** An accident, a blocked intersection or a downstream restriction may close the first lane, which keeps
      its speed; the other lanes stay open, as fast as the settings say for the first two kinds, at a share
      of their speed for the third.  Rain keeps every lane open at a share of its speed, at least 1 m/s.
      An emergency changes no lane.  No speed is set below 0.5 m/s. */
  ghost predicate AloneShows(kind: OverlayKind, m: Meta, i: nat, was: Cell, now: Cell) {
    && (Closing(kind) && i == 0 && m.lane0Disallow ==> now == Cell(Nobody, was.maxSpeed))
    && (Closing(kind) && !(i == 0 && m.lane0Disallow) ==> now.permission == was.permission)
    && (Closing(kind) && !(i == 0 && m.lane0Disallow) ==>
          now.maxSpeed == if kind.DownstreamRestriction? then Share(was.maxSpeed, m.speedFactor, 0.5) else Max(0.5, m.otherSpeed))
    && (kind.HeavyRain? ==> now == Cell(was.permission, Share(was.maxSpeed, m.edgeFactor, 1.0)))
    && (kind.Emergency? ==> now == was)
  }

  /** The kinds that can close their first lane. */
  predicate Closing(kind: OverlayKind) {
    kind.Accident? || kind.BlockedIntersection? || kind.DownstreamRestriction?
  }

  /** A share of a speed, but at least `least`. */
  function Share(speed: real, factor: real, least: real): real {
    Max(least, speed * factor)
  }

  /** The patch of the `i`-th lane: closed, or limited to a speed; an emergency patches nothing. */
  lemma PatchMeans(op: Op, i: nat, base: real)
    requires op.Add?
    ensures PatchFor(op.id, op.kind, op.meta, i, base).None? <==> op.kind.Emergency?
    ensures !op.kind.Emergency? ==>
              var p := PatchFor(op.id, op.kind, op.meta, i, base).value;
              && p.priority == op.meta.priority
              && (p.allowed == Some([]) || p.allowed == None) && (p.allowed.Some? <==> p.maxSpeed.None?)
              && (p.allowed.Some? <==> Closing(op.kind) && i == 0 && op.meta.lane0Disallow)
              && (p.maxSpeed.Some? && op.kind.HeavyRain? ==> p.maxSpeed.value == Share(base, op.meta.edgeFactor, 1.0))
              && (p.maxSpeed.Some? && op.kind.DownstreamRestriction? ==> p.maxSpeed.value == Share(base, op.meta.speedFactor, 0.5))
              && (p.maxSpeed.Some? && Closing(op.kind) && !op.kind.DownstreamRestriction? ==> p.maxSpeed.value == op.meta.otherSpeed)
  {
  }

  /** What the newest overlay does to its `i`-th lane when the other overlays there have lower priority. */
  lemma OverlayValues(ops: seq<Op>, op: Op, i: nat, original: Record)
    requires op.Add? && NoRepeats(op.lanes) && i < |op.lanes| && Topmost(ops, op, op.lanes[i], original.maxSpeed)
    ensures var lane, m := op.lanes[i], op.meta;
            var now, under := LaneValues(ops + [op], lane, original), LaneValues(Without(ops, op.id), lane, original);
            && (Closing(op.kind) && i == 0 && m.lane0Disallow ==> now == ([], under.1))
            && (Closing(op.kind) && !(i == 0 && m.lane0Disallow) ==> now.0 == under.0)
            && (Closing(op.kind) && !(i == 0 && m.lane0Disallow) ==>
                  now.1 == if op.kind.DownstreamRestriction? then Share(original.maxSpeed, m.speedFactor, 0.5) else m.otherSpeed)
            && (op.kind.HeavyRain? ==> now == (under.0, Share(original.maxSpeed, m.edgeFactor, 1.0)))
            && (op.kind.Emergency? ==> now == LaneValues(ops, lane, original))
  {
    hide Effective, Put, Drop, Patched, LanePatches, Without, PatchFor, Share;
    var lane := op.lanes[i];
    var ps := LanePatches(ops, lane, original.maxSpeed);
    PatchesAppend(ops, op, lane, original.maxSpeed);
    PatchesAreActive(ops, lane, original.maxSpeed);
    TargetPatched(ps, op, i, original.maxSpeed, |op.lanes|);
    DropIsWithout(ops, lane, original.maxSpeed, op.id);
    PatchMeans(op, i, original.maxSpeed);
    match PatchFor(op.id, op.kind, op.meta, i, original.maxSpeed)
    case Some(p) =>
      assert ALLOWED(p) == p.allowed && SPEED(p) == p.maxSpeed;
      PatchOwner(op, i, original.maxSpeed);
      TopPatch(ps, p, ALLOWED, original.allowed);
      TopPatch(ps, p, SPEED, original.maxSpeed);
      var now, under := LaneValues(ops + [op], lane, original), LaneValues(Without(ops, op.id), lane, original);
      assert now.0 == if p.allowed.Some? then p.allowed.value else under.0;
      assert now.1 == if p.maxSpeed.Some? then p.maxSpeed.value else under.1;
      assert now == (now.0, now.1);
    case None =>
  }

  class ScenarioCapacityActuator {
    const registry: ResourceStateRegistry
    var overlays: map<OverlayId, Instance>
    var order: seq<OverlayId>
    /** History of the additions and removals that took effect. */
    ghost var ops: seq<Op>
    /** History: what SUMO held for each lane when it was first captured; None for a lane it did not know. */
    ghost var first: map<LaneId, Option<Cell>>

    constructor (registry: ResourceStateRegistry, t: Lanes)
      requires registry.resources == map[]
      ensures this.registry == registry && Valid(t) && ops == [] && overlays == map[] && first == map[]
    {
      this.registry := registry;
      overlays, order, ops, first := map[], [], [], map[];
    }

    /** The registry's lanes are those captured, with the values they had then, and its patches are those
        of the history. */
    ghost predicate Records()
      reads this`ops, this`first, registry
    {
      && registry.resources.Keys == first.Keys
      && (forall l :: l in registry.resources ==> registry.resources[l].(patches := []) == Captured(first[l]))
      && (forall l :: l in registry.resources ==>
            registry.resources[l].patches == LanePatches(ops, l, registry.resources[l].maxSpeed))
      && (forall op, l :: op in ops && op.Add? && l in op.lanes ==> l in registry.resources)
    }

    /** Exactly the overlays that are not REMOVED are active in the history. */
    ghost predicate Lifecycles()
      reads this
    {
      && (forall id :: IsActive(ops, id) <==> id in overlays && overlays[id].state != Removed)
      && (forall id :: id in overlays <==> id in order)
    }

    /** Every captured lane that SUMO knows is live with exactly its composed values, and every
        overlay is either ACTIVE or REMOVED. */
    ghost predicate Valid(t: Lanes)
      reads this, registry, t
    {
      && Consistent(t)
      && (forall id :: id in overlays ==> overlays[id].state == Active || overlays[id].state == Removed)
    }

    ghost predicate Consistent(t: Lanes)
      reads this, registry, t
    {
      Records() && Lifecycles() && registry.Agree(t, registry.resources.Keys)
    }

    /** add_overlay. */
    method AddOverlay(t: Lanes, id: OverlayId, kind: OverlayKind, types: map<OverlayKind, Meta>, role: Role,
                      intersection: string, lanes: seq<LaneId>, duration: Option<real>, simT: real)
      returns (error: Option<AddError>)
      requires Valid(t)
      modifies this, registry, t
      ensures Valid(t)
      ensures error == if kind !in types then Some(UnknownType)
                       else if !kind.HeavyRain? && !kind.Emergency? && role.OtherRole? then Some(RoleRequired) else None
      ensures error.Some? ==> ops == old(ops) && overlays == old(overlays) && t.cells == old(t.cells)
                              && registry.resources == old(registry.resources) && first == old(first)
      ensures error.None? ==>
                && first.Keys == old(first).Keys + (set l | l in lanes)
                && (forall l :: l in first ==> first[l] == if l in old(first) then old(first)[l] else CellOf(old(t.cells), l))
                && t.cells.Keys == old(t.cells).Keys
                && (forall l :: l in t.cells && l !in lanes ==> t.cells[l] == old(t.cells)[l])
      ensures error.None? ==>
                && ops == old(ops) + [Add(id, kind, types[kind], lanes)]
                && id in overlays && overlays == old(overlays)[id := overlays[id]]
                && overlays[id].state == Active && overlays[id].lanes == lanes && overlays[id].intersection == intersection
                && overlays[id].expiresAt == Expiry(duration, simT)
    {
      hide Records, ResourceStateRegistry.Agree, Patched, LanePatches, IsActive, CellOf, Expiry, After, Without;
      if kind !in types {
        return Some(UnknownType);
      }
      if !kind.HeavyRain? && !kind.Emergency? && role.OtherRole? {
        return Some(RoleRequired);
      }
      ghost var op := Add(id, kind, types[kind], lanes);
      SameKeys(t);
      CaptureAll(t, lanes);
      PatchAll(t, op, id, kind, types[kind], lanes);
      PatchesAppend(old(ops), op, "", 0.0);
      ApplyTo(t, lanes, old(registry.resources.Keys));
      Register(id, Instance(kind, intersection, lanes, Active, simT, Expiry(duration, simT), types[kind].priority));
      error := None;
    }

    method Register(id: OverlayId, inst: Instance)
      requires inst.state == Active && forall j :: j in overlays <==> j in order
      requires forall j :: IsActive(ops, j) <==> j == id || (j in overlays && overlays[j].state != Removed)
      modifies this`overlays, this`order
      ensures overlays == old(overlays)[id := inst] && Lifecycles()
    {
      hide IsActive;
      overlays := overlays[id := inst];
      if id !in order {
        order := order + [id];
      }
    }

    /** Applies the target lanes; the lanes in `before` that are not targets already agree. */
    method ApplyTo(t: Lanes, lanes: seq<LaneId>, ghost before: set<LaneId>)
      requires registry.resources.Keys == before + (set l | l in lanes)
      requires registry.Agree(t, before - (set l | l in lanes))
      modifies t
      ensures registry.Agree(t, registry.resources.Keys)
      ensures t.cells.Keys == old(t.cells).Keys && forall l :: l in t.cells && l !in lanes ==> t.cells[l] == old(t.cells)[l]
    {
      if lanes != [] {
        assert lanes[0] in (set l | l in lanes);
        registry.ApplyEffective(t, set l | l in lanes);
      }
    }

    /** A missing or zero duration never expires. */
    function Expiry(duration: Option<real>, simT: real): Option<real> {
      if duration.Some? && duration.value != 0.0 then Some(simT + duration.value) else None
    }

    /** Captures the target lanes; the lanes captured before are still live as composed. */
    method CaptureAll(t: Lanes, lanes: seq<LaneId>)
      requires Records() && first.Keys == registry.resources.Keys && registry.Agree(t, registry.resources.Keys)
      modifies registry, this`first
      ensures Records() && registry.Agree(t, old(registry.resources.Keys))
      ensures registry.resources.Keys == old(registry.resources).Keys + (set l | l in lanes)
      ensures first.Keys == old(first).Keys + (set l | l in lanes)
      ensures forall l :: l in first ==> first[l] == if l in old(first) then old(first)[l] else CellOf(t.cells, l)
    {
      hide Records;
      for i := 0 to |lanes|
        invariant Records() && registry.Agree(t, old(registry.resources.Keys))
        invariant registry.resources.Keys == old(registry.resources).Keys + (set l | l in lanes[..i])
        invariant first.Keys == registry.resources.Keys
        invariant forall l :: l in first ==> first[l] == if l in old(first) then old(first)[l] else CellOf(t.cells, l)
      {
        assert lanes[..i + 1] == lanes[..i] + [lanes[i]];
        CaptureOne(t, lanes[i]);
      }
      assert lanes[..|lanes|] == lanes;
    }

    method CaptureOne(t: Lanes, l: LaneId)
      requires Records() && first.Keys == registry.resources.Keys
      modifies registry, this`first
      ensures Records() && first.Keys == registry.resources.Keys == old(registry.resources).Keys + {l}
      ensures forall k :: k in old(registry.resources) ==> registry.resources[k] == old(registry.resources)[k]
      ensures first == if l in old(first) then old(first) else old(first)[l := CellOf(t.cells, l)]
    {
      hide LanePatches, CellOf;
      if l !in registry.resources {
        UntouchedLane(ops, l, Captured(CellOf(t.cells, l)).maxSpeed);
        first := first[l := CellOf(t.cells, l)];
      }
      registry.CaptureLane(t, l);
    }

    /** Patches the target lanes one after the other and records the addition. */
    method PatchAll(t: Lanes, ghost op: Op, id: OverlayId, kind: OverlayKind, m: Meta, lanes: seq<LaneId>)
      requires Records() && op == Add(id, kind, m, lanes) && forall l :: l in lanes ==> l in registry.resources
      modifies this`ops, registry
      ensures ops == old(ops) + [op] && Records()
      ensures registry.resources.Keys == old(registry.resources).Keys
      ensures forall s: set<LaneId> :: old(registry.Agree(t, s)) ==> registry.Agree(t, s - (set l | l in lanes))
    {
      hide LanePatches, Patched, Captured, PatchFor, After, Composed, Rendered;
      PatchLanes(op, id, kind, m, lanes);
      forall l | l in registry.resources
        ensures registry.resources[l].patches == LanePatches(ops + [op], l, registry.resources[l].maxSpeed)
        ensures l !in lanes ==> registry.resources[l] == old(registry.resources)[l]
      {
        assert old(l in registry.resources);
        var before := old(registry.resources)[l];
        assert before.patches == LanePatches(ops, l, before.maxSpeed);
        PatchedLane(op, l, before.maxSpeed);
      }
      ops := ops + [op];
    }

    lemma PatchedLane(op: Op, l: LaneId, base: real)
      requires op.Add?
      ensures LanePatches(ops + [op], l, base) == Patched(LanePatches(ops, l, base), op, l, base, |op.lanes|)
      ensures l !in op.lanes ==> LanePatches(ops + [op], l, base) == LanePatches(ops, l, base)
    {
      hide LanePatches, Patched;
      PatchesAppend(ops, op, l, base);
      PatchesAreActive(ops, l, base);
      PatchedSpec(LanePatches(ops, l, base), op, l, base, |op.lanes|);
    }

    method PatchLanes(ghost op: Op, id: OverlayId, kind: OverlayKind, m: Meta, lanes: seq<LaneId>)
      requires op == Add(id, kind, m, lanes) && forall l :: l in lanes ==> l in registry.resources
      modifies registry
      ensures registry.resources.Keys == old(registry.resources).Keys
      ensures forall l :: l in registry.resources ==>
                registry.resources[l] == old(registry.resources)[l].(patches :=
                  Patched(old(registry.resources)[l].patches, op, l, old(registry.resources)[l].maxSpeed, |lanes|))
    {
      for i := 0 to |lanes|
        invariant registry.resources.Keys == old(registry.resources).Keys
        invariant forall l :: l in registry.resources ==>
                    registry.resources[l] == old(registry.resources)[l].(patches :=
                      Patched(old(registry.resources)[l].patches, op, l, old(registry.resources)[l].maxSpeed, i))
      {
        var p := PatchFor(id, kind, m, i, registry.resources[lanes[i]].maxSpeed);
        if p.Some? {
          var ok := registry.AddPatch(lanes[i], p.value);
        }
      }
    }

    /** Nothing is captured anew, and the lanes that are not captured keep their cells. */
    twostate predicate OthersKept(t: Lanes)
      reads this`first, t
    {
      && first == old(first) && t.cells.Keys == old(t.cells).Keys
      && forall l :: l in t.cells && l !in first ==> t.cells[l] == old(t.cells)[l]
    }

    /** remove_overlay; false when there is nothing to remove. */
    method RemoveOverlay(t: Lanes, id: OverlayId) returns (removed: bool)
      requires Consistent(t)
      modifies this, registry, t
      ensures Consistent(t)
      ensures removed <==> id in old(overlays) && old(overlays)[id].state != Removed
      ensures !removed ==> ops == old(ops) && overlays == old(overlays) && t.cells == old(t.cells)
                           && registry.resources == old(registry.resources)
      ensures removed ==> ops == old(ops) + [Remove(id)]
                          && overlays == old(overlays)[id := old(overlays)[id].(state := Removed)]
      ensures order == old(order) && OthersKept(t) && (old(Valid(t)) ==> Valid(t))
    {
      hide ResourceStateRegistry.Agree, LanePatches, IsActive, Drop, Has, Captured, Composed, Rendered;
      if id !in overlays || overlays[id].state == Removed {
        return false;
      }
      TakeOff(t, id);
      PatchesAppend(ops, Remove(id), "", 0.0);
      ops := ops + [Remove(id)];
      overlays := overlays[id := overlays[id].(state := Removed)];
      removed := true;
    }

    /** Removes the overlay's patches and re-applies the lanes that had one. */
    method TakeOff(t: Lanes, id: OverlayId)
      requires Consistent(t) && id in overlays
      modifies registry, t
      ensures registry.Agree(t, registry.resources.Keys) && OthersKept(t)
      ensures registry.resources.Keys == old(registry.resources).Keys
      ensures forall l :: l in registry.resources ==>
                && registry.resources[l].(patches := []) == old(registry.resources)[l].(patches := [])
                && registry.resources[l].patches == LanePatches(ops + [Remove(id)], l, registry.resources[l].maxSpeed)
    {
      hide LanePatches, IsActive, Drop, Composed, Rendered;
      forall l | l in registry.resources ensures LanePatches(ops + [Remove(id)], l, registry.resources[l].maxSpeed)
                                                 == Drop(registry.resources[l].patches, id) {
        PatchesAppend(ops, Remove(id), l, registry.resources[l].maxSpeed);
      }
      forall l | l in registry.resources && !Has(registry.resources[l].patches, id)
        ensures Drop(registry.resources[l].patches, id) == registry.resources[l].patches
      {
        DropSpec(registry.resources[l].patches, id);
      }
      ghost var before := registry.resources;
      var touched := registry.RemoveOverlay(id);
      assert registry.Agree(t, registry.resources.Keys - touched) by {
        forall l | l in registry.resources && l !in touched ensures registry.resources[l] == before[l] {
          assert registry.resources[l] == before[l].(patches := before[l].patches);
        }
      }
      registry.ApplyEffective(t, if touched != {} then touched else set l | l in overlays[id].lanes);
    }

    /** remove_overlays_for_intersection: every ACTIVE overlay of that node, in dictionary order. */
    method RemoveOverlaysForIntersection(t: Lanes, node: string) returns (removed: seq<OverlayId>)
      requires Valid(t)
      modifies this, registry, t
      ensures Valid(t) && overlays.Keys == old(overlays).Keys && OthersKept(t)
      ensures forall id :: id in overlays ==>
                overlays[id] == (if old(overlays)[id].state == Active && old(overlays)[id].intersection == node
                                 then old(overlays)[id].(state := Removed) else old(overlays)[id])
      ensures forall id :: id in removed <==>
                id in old(overlays) && old(overlays)[id].state == Active && old(overlays)[id].intersection == node
    {
      hide Consistent;
      SameKeys(t);
      removed := [];
      for i := 0 to |order|
        invariant Valid(t) && order == old(order) && overlays.Keys == old(overlays).Keys && OthersKept(t)
        invariant forall id :: id in overlays ==>
                    if id in order[..i] && old(overlays)[id].state == Active && old(overlays)[id].intersection == node
                    then id in removed && overlays[id] == old(overlays)[id].(state := Removed)
                    else overlays[id] == old(overlays)[id]
        invariant forall id :: id in removed ==>
                    id in old(overlays) && old(overlays)[id].state == Active && old(overlays)[id].intersection == node
      {
        var id := order[i];
        assert order[..i + 1] == order[..i] + [id];
        if overlays[id].state == Active && overlays[id].intersection == node {
          var done := RemoveOverlay(t, id);
          if done {
            removed := removed + [id];
          }
        }
      }
      assert order[..|order|] == order;
    }

    lemma SameKeys(t: Lanes)
      requires Consistent(t)
      ensures first.Keys == registry.resources.Keys && forall id :: id in overlays <==> id in order
    {
    }

    /** tick_expiry: every ACTIVE overlay whose time has come goes through EXPIRED to REMOVED. */
    method TickExpiry(t: Lanes, simT: real) returns (expired: seq<OverlayId>)
      requires Valid(t)
      modifies this, registry, t
      ensures Valid(t) && overlays.Keys == old(overlays).Keys && OthersKept(t)
      ensures forall id :: id in overlays ==>
                overlays[id] == (if Due(old(overlays)[id], simT) then old(overlays)[id].(state := Removed) else old(overlays)[id])
      ensures forall id :: id in expired <==> id in old(overlays) && Due(old(overlays)[id], simT)
    {
      hide Consistent;
      SameKeys(t);
      expired := [];
      for i := 0 to |order|
        invariant Valid(t) && order == old(order) && overlays.Keys == old(overlays).Keys && OthersKept(t)
        invariant forall id :: id in overlays ==>
                    if id in order[..i] && Due(old(overlays)[id], simT)
                    then id in expired && overlays[id] == old(overlays)[id].(state := Removed)
                    else overlays[id] == old(overlays)[id]
        invariant forall id :: id in expired ==> id in old(overlays) && Due(old(overlays)[id], simT)
      {
        var id := order[i];
        assert order[..i + 1] == order[..i] + [id];
        if Due(overlays[id], simT) {
          Expire(t, id);
          expired := expired + [id];
        }
      }
      assert order[..|order|] == order;
    }

    predicate Due(inst: Instance, simT: real) {
      inst.state == Active && inst.expiresAt.Some? && simT >= inst.expiresAt.value
    }

    method Expire(t: Lanes, id: OverlayId)
      requires Consistent(t) && id in overlays && overlays[id].state == Active
      modifies this, registry, t
      ensures Consistent(t) && order == old(order) && OthersKept(t)
      ensures overlays == old(overlays)[id := old(overlays)[id].(state := Removed)]
    {
      hide Records, ResourceStateRegistry.Agree, IsActive;
      overlays := overlays[id := overlays[id].(state := Expired)];
      var removed := RemoveOverlay(t, id);
    }

    /** In every reachable state: what SUMO holds for a captured lane is the composition of the values it
        had when it was first captured with the patches of the overlays that are ACTIVE. */
    lemma LiveLane(t: Lanes, lane: LaneId)
      requires Valid(t) && lane in first && lane in t.cells
      ensures t.cells[lane] == Rendered(LaneValues(ops, lane, Captured(first[lane])))
      ensures lane in registry.resources
      ensures forall p :: p in registry.resources[lane].patches ==> p.overlay in overlays && overlays[p.overlay].state == Active
    {
      var rec := registry.resources[lane];
      PatchesAreActive(ops, lane, rec.maxSpeed);
      assert rec == Captured(first[lane]).(patches := LanePatches(ops, lane, rec.maxSpeed));
    }

    /** An overlay that is not active leaves no trace on any live lane: each has the values it would have
        had the overlay never been added. */
    lemma LiveAsIfNeverAdded(t: Lanes, lane: LaneId, o: OverlayId)
      requires Valid(t) && lane in first && lane in t.cells
      requires o in overlays ==> overlays[o].state == Removed
      ensures t.cells[lane] == Rendered(LaneValues(Without(ops, o), lane, Captured(first[lane])))
    {
      var base := Captured(first[lane]).maxSpeed;
      LiveLane(t, lane);
      PatchesAreActive(ops, lane, base);
      DropSpec(LanePatches(ops, lane, base), o);
      DropIsWithout(ops, lane, base, o);
    }

    /** An overlay added for a time is removed by the first check that comes that long after, and by none
        before; without a duration, or with a zero one, it stays. */
    method AddThenTick(t: Lanes, id: OverlayId, kind: OverlayKind, types: map<OverlayKind, Meta>, role: Role,
                       intersection: string, lanes: seq<LaneId>, duration: Option<real>, simT: real, later: real)
      returns (expired: seq<OverlayId>)
      requires Valid(t) && kind in types && (kind.HeavyRain? || kind.Emergency? || !role.OtherRole?)
      modifies this, registry, t
      ensures Valid(t) && id in overlays
      ensures id in expired <==> duration.Some? && duration.value != 0.0 && later >= simT + duration.value
      ensures overlays[id].state == if id in expired then Removed else Active
      ensures forall o :: o in old(overlays) && o != id ==>
                (o in expired <==>
                  old(overlays)[o].state == Active && old(overlays)[o].expiresAt.Some? && old(overlays)[o].expiresAt.value <= later)
    {
      hide Consistent;
      var error := AddOverlay(t, id, kind, types, role, intersection, lanes, duration, simT);
      expired := TickExpiry(t, later);
    }

    /** What SUMO shows on the `i`-th lane of the newest overlay, against `under`, which is what the lane
        would show without it: the first lane closed or not, the speed limited, the rest left alone. */
    lemma NewestShows(t: Lanes, before: seq<Op>, op: Op, i: nat)
      requires Valid(t) && op.Add? && ops == before + [op] && NoRepeats(op.lanes) && i < |op.lanes|
      requires op.lanes[i] in first && op.lanes[i] in t.cells
      requires Topmost(before, op, op.lanes[i], Captured(first[op.lanes[i]]).maxSpeed)
      ensures var lane, m := op.lanes[i], op.meta;
              var original := Captured(first[lane]);
              var now, under := t.cells[lane], Rendered(LaneValues(Without(before, op.id), lane, original));
              && (Closing(op.kind) && i == 0 && m.lane0Disallow ==> now == Cell(Nobody, under.maxSpeed))
              && (Closing(op.kind) && !(i == 0 && m.lane0Disallow) ==> now.permission == under.permission)
              && (Closing(op.kind) && !(i == 0 && m.lane0Disallow) ==>
                    now.maxSpeed == if op.kind.DownstreamRestriction? then Share(original.maxSpeed, m.speedFactor, 0.5) else Max(0.5, m.otherSpeed))
              && (op.kind.HeavyRain? ==> now == Cell(under.permission, Share(original.maxSpeed, m.edgeFactor, 1.0)))
              && (op.kind.Emergency? ==> now == Rendered(LaneValues(before, lane, original)))
    {
      hide LaneValues, Topmost, Consistent;
      LiveLane(t, op.lanes[i]);
      OverlayValues(before, op, i, Captured(first[op.lanes[i]]));
    }

    /** The only overlay, on lanes without repeats, against what the lanes showed before it. */
    method AddAlone(t: Lanes, id: OverlayId, kind: OverlayKind, types: map<OverlayKind, Meta>, role: Role,
                    intersection: string, lanes: seq<LaneId>, duration: Option<real>, simT: real)
      requires Valid(t) && (forall o :: o in overlays ==> overlays[o].state == Removed) && NoRepeats(lanes)
      requires kind in types && (kind.HeavyRain? || kind.Emergency? || !role.OtherRole?)
      modifies this, registry, t
      ensures Valid(t) && t.cells.Keys == old(t.cells).Keys && id in overlays && overlays[id].state == Active
      ensures forall l :: l in t.cells && l !in lanes ==> t.cells[l] == old(t.cells)[l]
      ensures forall i :: 0 <= i < |lanes| && lanes[i] in t.cells && old(Untouched(t, lanes[i])) ==>
                AloneShows(kind, types[kind], i, old(t.cells)[lanes[i]], t.cells[lanes[i]])
    {
      hide Consistent, LaneValues, Rendered, Preserved, AloneShows, IsActive;
      NoneActive(t);
      var error := AddOverlay(t, id, kind, types, role, intersection, lanes, duration, simT);
      forall i | 0 <= i < |lanes| && lanes[i] in t.cells && old(Untouched(t, lanes[i]))
        ensures AloneShows(kind, types[kind], i, old(t.cells)[lanes[i]], t.cells[lanes[i]])
      {
        assert first[lanes[i]] == Some(old(t.cells)[lanes[i]]);
        AloneOnLane(t, old(ops), Add(id, kind, types[kind], lanes), i, old(t.cells)[lanes[i]]);
      }
    }

    /** The lane shows what it had when it was captured, or was never captured, and that is preserved. */
    ghost predicate Untouched(t: Lanes, l: LaneId)
      reads this`first, t
    {
      l in t.cells && Preserved(t.cells[l]) && (l in first ==> first[l] == Some(t.cells[l]))
    }

    lemma NoneActive(t: Lanes)
      requires Valid(t) && forall o :: o in overlays ==> overlays[o].state == Removed
      ensures forall o :: !IsActive(ops, o)
    {
    }

    lemma AloneOnLane(t: Lanes, before: seq<Op>, op: Op, i: nat, was: Cell)
      requires Valid(t) && op.Add? && ops == before + [op] && NoRepeats(op.lanes) && i < |op.lanes|
      requires op.lanes[i] in first && op.lanes[i] in t.cells && first[op.lanes[i]] == Some(was) && Preserved(was)
      requires forall o :: !IsActive(before, o)
      ensures AloneShows(op.kind, op.meta, i, was, t.cells[op.lanes[i]])
    {
      hide Consistent, Rendered, Preserved, IsActive, LanePatches, Without, Share;
      var lane, original := op.lanes[i], Captured(Some(was));
      PatchesAreActive(before, lane, original.maxSpeed);
      var ps := LanePatches(before, lane, original.maxSpeed);
      HeadIn(ps);
      DropIsWithout(before, lane, original.maxSpeed, op.id);
      assert LaneValues(Without(before, op.id), lane, original) == LaneValues(before, lane, original) == Composed(original);
      RestoreIff(was);
      NewestShows(t, before, op, i);
    }

    /** With no overlay left, a lane is what it was before its first overlay exactly when its speed was not
        below the floor and its permission is one the capture tells apart. */
    lemma RestoredIff(t: Lanes, lane: LaneId)
      requires Valid(t) && lane in first && first[lane].Some? && lane in t.cells
      requires forall id :: id in overlays ==> overlays[id].state == Removed
      ensures t.cells[lane] == first[lane].value <==>
              Preserved(first[lane].value)
    {
      LiveLane(t, lane);
      NothingActive(ops, lane, Captured(first[lane]));
      RestoreIff(first[lane].value);
    }

    /** Adding the only overlay and taking it off again: a lane that was never captured before is back to
        what it was, unless it was a target that capturing does not preserve. */
    method AddThenRemove(t: Lanes, id: OverlayId, kind: OverlayKind, types: map<OverlayKind, Meta>, role: Role,
                         intersection: string, lanes: seq<LaneId>, duration: Option<real>, simT: real)
      requires Valid(t) && forall o :: o in overlays ==> overlays[o].state == Removed
      requires kind in types && (kind.HeavyRain? || kind.Emergency? || !role.OtherRole?)
      modifies this, registry, t
      ensures Valid(t) && t.cells.Keys == old(t.cells).Keys
      ensures forall l :: l in t.cells && l !in old(first) ==>
                (t.cells[l] == old(t.cells)[l] <==> (l in lanes ==> Preserved(old(t.cells)[l])))
    {
      hide Consistent, LaneValues, Rendered, Preserved;
      var error := AddOverlay(t, id, kind, types, role, intersection, lanes, duration, simT);
      var removed := RemoveOverlay(t, id);
      forall l | l in t.cells && l in lanes && l !in old(first)
        ensures t.cells[l] == old(t.cells)[l] <==> Preserved(old(t.cells)[l])
      {
        RestoredIff(t, l);
      }
    }
  }
}
