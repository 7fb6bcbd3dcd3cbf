/** Lane patches and their composition: `Visualize/actuators/resource_state.py`. */
module ResourceState {
  import opened Options

  type LaneId = string
  type OverlayId = string

  datatype OverlayKind = HeavyRain | DownstreamRestriction | Accident | BlockedIntersection | Emergency

  /** One overlay's change to one lane; None leaves a field as it is. */
  datatype Patch = Patch(overlay: OverlayId, kind: OverlayKind, priority: int,
                         allowed: Option<seq<string>>, maxSpeed: Option<real>)

  /** A captured lane: the values it had, and its patches in dictionary order. */
  datatype Record = Record(allowed: seq<string>, maxSpeed: real, patches: seq<Patch>)

  /** What SUMO holds for a lane. */
  datatype Permission = Everyone | Nobody | Only(classes: seq<string>)
  datatype Cell = Cell(permission: Permission, maxSpeed: real)

  // ----- the patch dictionary -----

  ghost predicate DistinctIds(ps: seq<Patch>) {
    forall i, j :: 0 <= i < j < |ps| ==> ps[i].overlay != ps[j].overlay
  }

  predicate Has(ps: seq<Patch>, id: OverlayId) {
    exists i :: 0 <= i < |ps| && ps[i].overlay == id
  }

  /** `patches[p.overlay_id] = p`: an existing key keeps its place. */
  function Put(ps: seq<Patch>, p: Patch): seq<Patch> {
    if ps == [] then [p]
    else if ps[0].overlay == p.overlay then [p] + ps[1..]
    else [ps[0]] + Put(ps[1..], p)
  }

  /** `del patches[id]`. */
  function Drop(ps: seq<Patch>, id: OverlayId): seq<Patch> {
    if ps == [] then []
    else if ps[0].overlay == id then Drop(ps[1..], id)
    else [ps[0]] + Drop(ps[1..], id)
  }

  lemma PutSpec(ps: seq<Patch>, p: Patch)
    requires DistinctIds(ps)
    ensures DistinctIds(Put(ps, p))
    ensures forall q :: q in Put(ps, p) <==> q == p || (q in ps && q.overlay != p.overlay)
  {
    hide Put, DistinctIds;
    PutMembers(ps, p);
    PutDistinct(ps, p);
  }

  lemma {:induction false} PutMembers(ps: seq<Patch>, p: Patch)
    requires DistinctIds(ps)
    ensures forall q :: q in Put(ps, p) <==> q == p || (q in ps && q.overlay != p.overlay)
  {
    if ps != [] {
      PutMembers(ps[1..], p);
      assert ps == [ps[0]] + ps[1..];
      forall q | q in ps[1..] ensures q.overlay != ps[0].overlay {
        var i :| 0 <= i < |ps[1..]| && ps[1..][i] == q;
        assert ps[i + 1] == q;
      }
    }
  }

  lemma {:induction false} PutDistinct(ps: seq<Patch>, p: Patch)
    requires DistinctIds(ps)
    ensures DistinctIds(Put(ps, p))
  {
    if ps != [] {
      PutDistinct(ps[1..], p);
      PutMembers(ps[1..], p);
      var rest := Put(ps[1..], p);
      if ps[0].overlay != p.overlay {
        forall j | 0 <= j < |rest| ensures rest[j].overlay != ps[0].overlay {
          assert rest[j] in rest;
        }
      }
    }
  }

  lemma DropSpec(ps: seq<Patch>, id: OverlayId)
    ensures forall q :: q in Drop(ps, id) <==> q in ps && q.overlay != id
    ensures !Has(ps, id) ==> Drop(ps, id) == ps
    ensures DistinctIds(ps) ==> DistinctIds(Drop(ps, id))
  {
    hide Has, Drop, DistinctIds;
    DropMembers(ps, id);
    DropNothing(ps, id);
    if DistinctIds(ps) {
      DropDistinct(ps, id);
    }
  }

  lemma {:induction false} DropMembers(ps: seq<Patch>, id: OverlayId)
    ensures forall q :: q in Drop(ps, id) <==> q in ps && q.overlay != id
  {
    if ps != [] {
      DropMembers(ps[1..], id);
      assert ps == [ps[0]] + ps[1..];
    }
  }

  lemma {:induction false} DropNothing(ps: seq<Patch>, id: OverlayId)
    ensures !Has(ps, id) ==> Drop(ps, id) == ps
  {
    if ps != [] && !Has(ps, id) {
      DropNothing(ps[1..], id);
      forall i | 0 <= i < |ps[1..]| ensures ps[1..][i].overlay != id { assert ps[i + 1].overlay != id; }
      assert ps == [ps[0]] + ps[1..];
    }
  }

  lemma {:induction false} DropDistinct(ps: seq<Patch>, id: OverlayId)
    requires DistinctIds(ps)
    ensures DistinctIds(Drop(ps, id))
  {
    if ps != [] {
      DropDistinct(ps[1..], id);
      DropMembers(ps[1..], id);
      var rest := Drop(ps[1..], id);
      forall j | 0 <= j < |rest| ensures rest[j].overlay != ps[0].overlay {
        assert rest[j] in ps[1..];
      }
    }
  }

  lemma {:induction false} DropAfterPut(ps: seq<Patch>, p: Patch, id: OverlayId)
    requires DistinctIds(ps)
    ensures Drop(Put(ps, p), id) == if p.overlay == id then Drop(ps, id) else Put(Drop(ps, id), p)
  {
    if ps != [] {
      DropAfterPut(ps[1..], p, id);
    }
  }

  lemma {:induction false} DropCommutes(ps: seq<Patch>, a: OverlayId, b: OverlayId)
    ensures Drop(Drop(ps, a), b) == Drop(Drop(ps, b), a)
  {
    if ps != [] {
      DropCommutes(ps[1..], a, b);
    }
  }

  // ----- composition -----

  /** `sorted(..., key=priority)`: stable. */
  function SortByPriority(ps: seq<Patch>): seq<Patch> {
    if ps == [] then [] else InsertByPriority(SortByPriority(ps[..|ps| - 1]), ps[|ps| - 1])
  }

  function InsertByPriority(s: seq<Patch>, p: Patch): seq<Patch> {
    if s == [] || s[|s| - 1].priority <= p.priority then s + [p]
    else InsertByPriority(s[..|s| - 1], p) + [s[|s| - 1]]
  }

  ghost predicate Ascending(s: seq<Patch>) {
    forall i, j :: 0 <= i < j < |s| ==> s[i].priority <= s[j].priority
  }

  /** The value of the last patch that sets the field `f`, or `original`. */
  function LastSet<T>(s: seq<Patch>, f: Patch -> Option<T>, original: T): T {
    if s == [] then original
    else match f(s[|s| - 1])
      case Some(x) => x
      case None => LastSet(s[..|s| - 1], f, original)
  }

  const ALLOWED: Patch -> Option<seq<string>> := (p: Patch) => p.allowed
  const SPEED: Patch -> Option<real> := (p: Patch) => p.maxSpeed

  /** The values a lane should have. */
  function Composed(rec: Record): (seq<string>, real) {
    (Effective(rec.patches, ALLOWED, rec.allowed), Effective(rec.patches, SPEED, rec.maxSpeed))
  }

  function Effective<T>(ps: seq<Patch>, f: Patch -> Option<T>, original: T): T {
    LastSet(SortByPriority(ps), f, original)
  }

  /** Patch `i` decides field `f`: it sets it, and every other patch that sets it has a lower
      priority, or the same priority and an earlier place. */
  ghost predicate Decides<T>(ps: seq<Patch>, f: Patch -> Option<T>, i: int) {
    && 0 <= i < |ps| && f(ps[i]).Some?
    && forall j :: 0 <= j < |ps| && f(ps[j]).Some? ==>
         ps[j].priority < ps[i].priority || (ps[j].priority == ps[i].priority && j <= i)
  }

  /** The index of the deciding patch, or -1. */
  function Winner<T>(ps: seq<Patch>, f: Patch -> Option<T>): int {
    if ps == [] then -1
    else
      var rest, last := ps[..|ps| - 1], ps[|ps| - 1];
      var w := Winner(rest, f);
      if f(last).None? || (0 <= w < |rest| && rest[w].priority > last.priority) then w else |rest|
  }

  lemma {:induction false} WinnerDecides<T>(ps: seq<Patch>, f: Patch -> Option<T>)
    ensures Winner(ps, f) == -1 || Decides(ps, f, Winner(ps, f))
    ensures Winner(ps, f) == -1 <==> forall i :: 0 <= i < |ps| ==> f(ps[i]).None?
  {
    if ps != [] {
      var rest := ps[..|ps| - 1];
      WinnerDecides(rest, f);
      assert forall i :: 0 <= i < |rest| ==> rest[i] == ps[i];
    }
  }

  lemma WinnerInRange<T>(ps: seq<Patch>, f: Patch -> Option<T>)
    ensures -1 <= Winner(ps, f) < |ps|
  {
  }

  lemma {:induction false} InsertAscending(s: seq<Patch>, p: Patch)
    requires Ascending(s)
    ensures Ascending(InsertByPriority(s, p))
    ensures forall q :: q in InsertByPriority(s, p) <==> q in s || q == p
  {
    if s != [] && s[|s| - 1].priority > p.priority {
      var init, last := s[..|s| - 1], s[|s| - 1];
      InsertAscending(init, p);
      assert s == init + [last];
      var r := InsertByPriority(init, p);
      forall i, j | 0 <= i < j < |r + [last]| ensures (r + [last])[i].priority <= (r + [last])[j].priority {
        if j == |r| {
          assert r[i] in r;
        }
      }
    }
  }

  /** No patch of `s` that sets `f` has a priority above `k`. */
  ghost predicate NoneAbove<T>(s: seq<Patch>, f: Patch -> Option<T>, k: int) {
    forall q :: q in s && f(q).Some? ==> q.priority <= k
  }

  lemma NoneAboveAppend<T>(s: seq<Patch>, last: Patch, f: Patch -> Option<T>, k: int)
    ensures NoneAbove(s + [last], f, k) <==> NoneAbove(s, f, k) && (f(last).Some? ==> last.priority <= k)
  {
    assert last in s + [last];
    assert forall q :: q in s ==> q in s + [last];
  }

  /** Inserting a patch into a sorted list: it decides the field unless one of higher priority does. */
  lemma {:induction false} LastSetInsert<T>(s: seq<Patch>, p: Patch, f: Patch -> Option<T>, original: T)
    requires Ascending(s)
    ensures LastSet(InsertByPriority(s, p), f, original) ==
            if f(p).Some? && NoneAbove(s, f, p.priority) then f(p).value else LastSet(s, f, original)
  {
    hide NoneAbove, Ascending, LastSet;
    if s == [] || s[|s| - 1].priority <= p.priority {
      NoneAboveSorted(s, f, p.priority);
      LastSetAppend(s, p, f, original);
    } else {
      var init, last := s[..|s| - 1], s[|s| - 1];
      assert s == init + [last];
      AscendingPrefix(s);
      LastSetInsert(init, p, f, original);
      NoneAboveAppend(init, last, f, p.priority);
      LastSetAppend(InsertByPriority(init, p), last, f, original);
      LastSetAppend(init, last, f, original);
    }
  }

  lemma AscendingPrefix(s: seq<Patch>)
    requires Ascending(s) && s != []
    ensures Ascending(s[..|s| - 1])
  {
  }

  /** A sorted list that ends at or below `k` has nothing above it. */
  lemma NoneAboveSorted<T>(s: seq<Patch>, f: Patch -> Option<T>, k: int)
    requires Ascending(s) && (s == [] || s[|s| - 1].priority <= k)
    ensures NoneAbove(s, f, k)
  {
    forall q | q in s && f(q).Some? ensures q.priority <= k {
      LastIsHighest(s, q);
    }
  }

  lemma LastSetAppend<T>(s: seq<Patch>, last: Patch, f: Patch -> Option<T>, original: T)
    ensures LastSet(s + [last], f, original) == (match f(last) case Some(x) => x case None => LastSet(s, f, original))
  {
    assert (s + [last])[..|s|] == s;
  }

  lemma LastIsHighest(s: seq<Patch>, q: Patch)
    requires Ascending(s) && q in s
    ensures q.priority <= s[|s| - 1].priority
  {
  }

  lemma {:induction false} SortAscending(ps: seq<Patch>)
    ensures Ascending(SortByPriority(ps))
    ensures forall q :: q in SortByPriority(ps) <==> q in ps
  {
    if ps != [] {
      SortAscending(ps[..|ps| - 1]);
      InsertAscending(SortByPriority(ps[..|ps| - 1]), ps[|ps| - 1]);
      assert ps == ps[..|ps| - 1] + [ps[|ps| - 1]];
    }
  }

  /** The deciding patch so far tells whether anything outranks a further patch `p`. */
  lemma Outranked<T>(rest: seq<Patch>, f: Patch -> Option<T>, p: Patch)
    ensures NoneAbove(SortByPriority(rest), f, p.priority)
            <==> !(0 <= Winner(rest, f) < |rest| && rest[Winner(rest, f)].priority > p.priority)
  {
    hide SortByPriority;
    SortAscending(rest);
    WinnerDecides(rest, f);
    var w := Winner(rest, f);
    if w != -1 {
      assert rest[w] in rest;
    }
  }

  /** The value the deciding patch gives the field, or the original value. */
  function Decided<T>(ps: seq<Patch>, f: Patch -> Option<T>, original: T): T {
    var w := Winner(ps, f);
    if 0 <= w < |ps| && f(ps[w]).Some? then f(ps[w]).value else original
  }

  lemma DecidedAppend<T>(rest: seq<Patch>, last: Patch, f: Patch -> Option<T>, original: T)
    ensures Decided(rest + [last], f, original) ==
            if f(last).Some? && !(0 <= Winner(rest, f) < |rest| && rest[Winner(rest, f)].priority > last.priority)
            then f(last).value else Decided(rest, f, original)
  {
    assert (rest + [last])[..|rest|] == rest;
    WinnerInRange(rest, f);
  }

  lemma SortAppend(rest: seq<Patch>, last: Patch)
    ensures SortByPriority(rest + [last]) == InsertByPriority(SortByPriority(rest), last)
  {
    assert (rest + [last])[..|rest|] == rest;
  }

  /** The fold over the sorted patches gives each field the value of its deciding patch. */
  lemma {:induction false} EffectiveIsWinner<T>(ps: seq<Patch>, f: Patch -> Option<T>, original: T)
    ensures Effective(ps, f, original) == Decided(ps, f, original)
    decreases |ps|
  {
    if ps != [] {
      var rest, last := ps[..|ps| - 1], ps[|ps| - 1];
      assert ps == rest + [last];
      hide Winner, Decided, SortByPriority, InsertByPriority, LastSet, NoneAbove;
      EffectiveIsWinner(rest, f, original);
      SortAscending(rest);
      SortAppend(rest, last);
      LastSetInsert(SortByPriority(rest), last, f, original);
      Outranked(rest, f, last);
      DecidedAppend(rest, last, f, original);
    }
  }

  /** Each field of a composed lane has the value of the patch that decides it; a field that no
      patch sets has its captured value. */
  lemma ComposedSpec(rec: Record)
    ensures forall i :: Decides(rec.patches, ALLOWED, i) ==> Composed(rec).0 == rec.patches[i].allowed.value
    ensures forall i :: Decides(rec.patches, SPEED, i) ==> Composed(rec).1 == rec.patches[i].maxSpeed.value
    ensures (forall p :: p in rec.patches ==> p.allowed.None?) ==> Composed(rec).0 == rec.allowed
    ensures (forall p :: p in rec.patches ==> p.maxSpeed.None?) ==> Composed(rec).1 == rec.maxSpeed
  {
    FieldSpec(rec.patches, ALLOWED, rec.allowed);
    FieldSpec(rec.patches, SPEED, rec.maxSpeed);
  }

  lemma FieldSpec<T>(ps: seq<Patch>, f: Patch -> Option<T>, original: T)
    ensures forall i :: Decides(ps, f, i) ==> Effective(ps, f, original) == f(ps[i]).value
    ensures (forall p :: p in ps ==> f(p).None?) ==> Effective(ps, f, original) == original
  {
    EffectiveIsWinner(ps, f, original);
    WinnerDecides(ps, f);
    forall i | Decides(ps, f, i) ensures Effective(ps, f, original) == f(ps[i]).value {
      assert i == Winner(ps, f);
    }
  }

  /** One patch more at the end: it decides a field it sets, unless one of higher priority does. */
  lemma EffectiveAppend<T>(rest: seq<Patch>, last: Patch, f: Patch -> Option<T>, original: T)
    ensures Effective(rest + [last], f, original) ==
            if f(last).Some? && NoneAbove(rest, f, last.priority) then f(last).value else Effective(rest, f, original)
  {
    hide SortByPriority, InsertByPriority, LastSet;
    SortAscending(rest);
    SortAppend(rest, last);
    LastSetInsert(SortByPriority(rest), last, f, original);
  }

  /** A patch that does not set a field has no part in it. */
  lemma {:induction false} UnsetIsSkipped<T>(a: seq<Patch>, p: Patch, b: seq<Patch>, f: Patch -> Option<T>, original: T)
    requires f(p).None?
    ensures Effective(a + [p] + b, f, original) == Effective(a + b, f, original)
    decreases |b|
  {
    hide Effective, NoneAbove;
    if b == [] {
      assert a + [p] + b == a + [p] && a + b == a;
      EffectiveAppend(a, p, f, original);
    } else {
      var c, w := b[..|b| - 1], b[|b| - 1];
      assert a + [p] + b == (a + [p] + c) + [w] && a + b == (a + c) + [w];
      UnsetIsSkipped(a, p, c, f, original);
      EffectiveAppend(a + [p] + c, w, f, original);
      EffectiveAppend(a + c, w, f, original);
      UnsetAbove(a, p, c, f, w.priority);
    }
  }

  lemma UnsetAbove<T>(a: seq<Patch>, p: Patch, b: seq<Patch>, f: Patch -> Option<T>, k: int)
    requires f(p).None?
    ensures NoneAbove(a + [p] + b, f, k) <==> NoneAbove(a + b, f, k)
  {
    assert forall q :: q in a + [p] + b <==> q in a + b || q == p;
  }

  /** Putting a patch: where it stands, and what the others are. */
  lemma {:induction false} PutSplit(ps: seq<Patch>, p: Patch) returns (a: seq<Patch>, b: seq<Patch>)
    requires DistinctIds(ps)
    ensures Put(ps, p) == a + [p] + b && Drop(ps, p.overlay) == a + b
  {
    if ps == [] {
      a, b := [], [];
    } else if ps[0].overlay == p.overlay {
      a, b := [], ps[1..];
      DropNothing(ps[1..], p.overlay);
    } else {
      a, b := PutSplit(ps[1..], p);
      a := [ps[0]] + a;
    }
  }

  /** A new patch above all the others decides the fields it sets, and leaves the rest to them. */
  lemma TopPatch<T>(ps: seq<Patch>, p: Patch, f: Patch -> Option<T>, original: T)
    requires DistinctIds(ps) && forall q :: q in ps && q.overlay != p.overlay ==> q.priority < p.priority
    ensures Effective(Put(ps, p), f, original) ==
            match f(p) case Some(x) => x case None => Effective(Drop(ps, p.overlay), f, original)
  {
    hide Effective;
    var a, b := PutSplit(ps, p);
    DropMembers(ps, p.overlay);
    if f(p).None? {
      UnsetIsSkipped(a, p, b, f, original);
    } else {
      var all := a + [p] + b;
      forall j | 0 <= j < |all| && j != |a| ensures all[j].priority < p.priority {
        assert all[j] in a + b;
      }
      assert Decides(all, f, |a|);
      FieldSpec(all, f, original);
    }
  }

  /** When the patches that set a field have different priorities, their order does not matter. */
  lemma OrderIrrelevant<T>(ps: seq<Patch>, qs: seq<Patch>, f: Patch -> Option<T>, original: T)
    requires forall p :: p in ps <==> p in qs
    requires forall p, q :: p in ps && q in ps && f(p).Some? && f(q).Some? && p != q ==> p.priority != q.priority
    ensures Effective(ps, f, original) == Effective(qs, f, original)
  {
    EffectiveIsWinner(ps, f, original);
    EffectiveIsWinner(qs, f, original);
    WinnerDecides(ps, f);
    WinnerDecides(qs, f);
    var v, w := Winner(ps, f), Winner(qs, f);
    if v == -1 {
      forall j | 0 <= j < |qs| ensures f(qs[j]).None? {
        assert qs[j] in ps;
      }
    } else {
      assert ps[v] in qs;
      var j :| 0 <= j < |qs| && qs[j] == ps[v];
      assert w != -1;
      assert qs[w] in ps;
      var i :| 0 <= i < |ps| && ps[i] == qs[w];
      assert ps[v].priority <= qs[w].priority && qs[w].priority <= ps[v].priority;
    }
  }

  /** With equal priorities order does matter: the later patch wins. */
  lemma EqualPriorityLaterWins(a: Patch, b: Patch, original: real)
    requires a.priority == b.priority && a.maxSpeed.Some? && b.maxSpeed.Some?
    ensures Effective([a, b], SPEED, original) == b.maxSpeed.value
    ensures Effective([b, a], SPEED, original) == a.maxSpeed.value
  {
    FieldSpec([a, b], SPEED, original);
    FieldSpec([b, a], SPEED, original);
    assert Decides([a, b], SPEED, 1);
    assert Decides([b, a], SPEED, 1);
  }

  /** What apply_effective writes for composed values. */
  function Rendered(values: (seq<string>, real)): Cell {
    Cell(
      if values.0 == ["all"] then Everyone else if values.0 == [] then Nobody else Only(values.0),
      if values.1 > 0.5 then values.1 else 0.5)
  }

  // ----- the registry -----

  /** The lanes behind TraCI.  A call about a lane that is not there fails. */
  class Lanes {
    var cells: map<LaneId, Cell>

    constructor (cells: map<LaneId, Cell>)
      ensures this.cells == cells
    {
      this.cells := cells;
    }

    /** getAllowed: empty when every class is allowed. */
    function GetAllowed(lane: LaneId): Option<seq<string>>
      reads this
    {
      if lane !in cells then None
      else match cells[lane].permission
        case Everyone => Some([])
        case Nobody => Some(["none"])
        case Only(cs) => Some(cs)
    }
  }

  function CellOf(cells: map<LaneId, Cell>, lane: LaneId): Option<Cell> {
    if lane in cells then Some(cells[lane]) else None
  }

  /** What capture_lane stores for a lane that SUMO holds as `cell`, or does not know. */
  function Captured(cell: Option<Cell>): Record {
    match cell
    case None => Record(["all"], 13.9, [])
    case Some(c) =>
      var allowed := match c.permission case Everyone => [] case Nobody => ["none"] case Only(cs) => cs;
      Record(if allowed == [] then ["all"] else allowed, c.maxSpeed, [])
  }

  /** The speed is not below the floor, and the permission is one that capture_lane and apply_effective
      tell apart. */
  predicate Preserved(c: Cell) {
    c.maxSpeed >= 0.5 && c.permission !in {Nobody, Only([]), Only(["all"])}
  }

  /** Writing the captured values back gives the lane as it was exactly when it is so preserved. */
  lemma RestoreIff(c: Cell)
    ensures Rendered(Composed(Captured(Some(c)))) == c <==> Preserved(c)
  {
    ComposedSpec(Captured(Some(c)));
  }

  class ResourceStateRegistry {
    var resources: map<LaneId, Record>

    constructor ()
      ensures resources == map[]
    {
      resources := map[];
    }

    /** The live lanes agree with the composition of the lanes in `lanes`. */
    ghost predicate Agree(t: Lanes, lanes: set<LaneId>)
      reads this, t
    {
      forall l :: l in lanes && l in resources && l in t.cells ==> t.cells[l] == Rendered(Composed(resources[l]))
    }

    method CaptureLane(t: Lanes, lane: LaneId)
      modifies this
      ensures resources == if lane in old(resources) then old(resources) else old(resources)[lane := Captured(CellOf(t.cells, lane))]
    {
      if lane in resources {
        return;
      }
      var allowed, speed := ["all"], 13.9;
      var got := t.GetAllowed(lane);
      if got.Some? {
        allowed := if got.value == [] then ["all"] else got.value;
        speed := t.cells[lane].maxSpeed;
      }
      resources := resources[lane := Record(allowed, speed, [])];
    }

    /** False is the KeyError for a lane that was not captured. */
    method AddPatch(lane: LaneId, p: Patch) returns (ok: bool)
      modifies this
      ensures ok <==> lane in old(resources)
      ensures !ok ==> resources == old(resources)
      ensures ok ==> resources == old(resources)[lane := old(resources)[lane].(patches := Put(old(resources)[lane].patches, p))]
    {
      if lane !in resources {
        return false;
      }
      resources := resources[lane := resources[lane].(patches := Put(resources[lane].patches, p))];
      return true;
    }

    /** Drops the overlay's patch from every lane and reports the lanes that had one. */
    method RemoveOverlay(id: OverlayId) returns (touched: set<LaneId>)
      modifies this
      ensures resources.Keys == old(resources).Keys
      ensures forall l :: l in resources ==> resources[l] == old(resources)[l].(patches := Drop(old(resources)[l].patches, id))
      ensures touched == set l | l in old(resources) && Has(old(resources)[l].patches, id)
    {
      hide Drop, Has;
      touched := {};
      var todo := resources.Keys;
      while todo != {}
        invariant todo <= resources.Keys == old(resources).Keys
        invariant forall l :: l in todo ==> resources[l] == old(resources)[l]
        invariant forall l :: l in resources && l !in todo ==>
                    resources[l] == old(resources)[l].(patches := Drop(old(resources)[l].patches, id))
        invariant touched == set l | l in old(resources) && l !in todo && Has(old(resources)[l].patches, id)
        decreases |todo|
      {
        var lane :| lane in todo;
        DropSpec(resources[lane].patches, id);
        if Has(resources[lane].patches, id) {
          resources := resources[lane := resources[lane].(patches := Drop(resources[lane].patches, id))];
          touched := touched + {lane};
        }
        todo := todo - {lane};
      }
    }

    /** compose: sort by priority, then let each patch override what it sets. */
    method Compose(lane: LaneId) returns (allowed: seq<string>, speed: real)
      requires lane in resources
      ensures (allowed, speed) == Composed(resources[lane])
    {
      var rec := resources[lane];
      allowed, speed := rec.allowed, rec.maxSpeed;
      var ps := SortByPriority(rec.patches);
      for i := 0 to |ps|
        invariant allowed == LastSet(ps[..i], ALLOWED, rec.allowed)
        invariant speed == LastSet(ps[..i], SPEED, rec.maxSpeed)
      {
        var p := ps[i];
        if p.allowed.Some? {
          allowed := p.allowed.value;
        }
        if p.maxSpeed.Some? {
          speed := p.maxSpeed.value;
        }
        assert ps[..i + 1][..i] == ps[..i];
      }
      assert ps[..|ps|] == ps;
    }

    /** apply_effective: an empty request means every captured lane. */
    method ApplyEffective(t: Lanes, lanes: set<LaneId>)
      modifies t
      ensures Agree(t, if lanes == {} then resources.Keys else lanes)
      ensures t.cells.Keys == old(t.cells).Keys
      ensures forall l :: l in t.cells && (l !in resources || (lanes != {} && l !in lanes)) ==> t.cells[l] == old(t.cells)[l]
    {
      var ids := if lanes == {} then resources.Keys else lanes;
      var todo := ids;
      while todo != {}
        invariant todo <= ids && t.cells.Keys == old(t.cells).Keys
        invariant Agree(t, ids - todo)
        invariant forall l :: l in t.cells && (l !in resources || l !in ids) ==> t.cells[l] == old(t.cells)[l]
        decreases |todo|
      {
        var lane :| lane in todo;
        if lane in resources {
          var allowed, speed := Compose(lane);
          if lane in t.cells {
            t.cells := t.cells[lane := Rendered((allowed, speed))];
          }
        }
        todo := todo - {lane};
      }
    }
  }
}
