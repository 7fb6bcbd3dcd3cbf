/** The road network of `simulator/network.py`: the edge table, the edge lookup, and the two
    route queries.  The shortest-path search stands for `networkx.shortest_path`: it is proved to
    return a shortest path, which is what the source relies on. */
module Network {

  import opened Options

  datatype Node = A | B | C | D | N1 | W1 | S1 | E1 | E2

  datatype Direction = North | South | East | West

  /** An edge id such as "edge_A_B" is determined by its end points. */
  datatype EdgeId = EdgeId(from: Node, to: Node)

  /** One row of the edge table; the directions are None at a boundary node. */
  datatype EdgeRow = EdgeRow(length: real, fromDir: Option<Direction>, toDir: Option<Direction>)

  type Route = seq<Node>

  const ALL_NODES: seq<Node> := [A, B, C, D, N1, W1, S1, E1, E2]

  predicate IsIntersection(n: Node) {
    n == A || n == B || n == C || n == D
  }

  /** The edge table together with its lookup by end points. */
  function Lookup(a: Node, b: Node): (row: Option<EdgeRow>)
  {
    match (a, b)
    case (N1, A) => Some(EdgeRow(200.0, None, Some(North)))
    case (A, N1) => Some(EdgeRow(200.0, Some(North), None))
    case (W1, A) => Some(EdgeRow(250.0, None, Some(West)))
    case (A, W1) => Some(EdgeRow(250.0, Some(West), None))
    case (A, B) => Some(EdgeRow(300.0, Some(East), Some(West)))
    case (B, A) => Some(EdgeRow(300.0, Some(West), Some(East)))
    case (A, C) => Some(EdgeRow(280.0, Some(South), Some(North)))
    case (C, A) => Some(EdgeRow(280.0, Some(North), Some(South)))
    case (B, E1) => Some(EdgeRow(220.0, Some(East), None))
    case (E1, B) => Some(EdgeRow(220.0, None, Some(East)))
    case (B, D) => Some(EdgeRow(260.0, Some(South), Some(North)))
    case (D, B) => Some(EdgeRow(260.0, Some(North), Some(South)))
    case (C, D) => Some(EdgeRow(300.0, Some(East), Some(West)))
    case (D, C) => Some(EdgeRow(300.0, Some(West), Some(East)))
    case (B, S1) => Some(EdgeRow(340.0, Some(North), None))
    case (S1, B) => Some(EdgeRow(340.0, None, Some(North)))
    case (D, E1) => Some(EdgeRow(300.0, Some(South), None))
    case (E1, D) => Some(EdgeRow(300.0, None, Some(South)))
    case (C, S1) => Some(EdgeRow(200.0, Some(South), None))
    case (S1, C) => Some(EdgeRow(200.0, None, Some(South)))
    case (D, E2) => Some(EdgeRow(210.0, Some(East), None))
    case (E2, D) => Some(EdgeRow(210.0, None, Some(East)))
    case _ => None
  }

  predicate IsEdge(a: Node, b: Node) {
    Lookup(a, b).Some?
  }

  /** Every road is two-way, with one length and one side of each node for both directions. */
  lemma RoadsAreTwoWay(a: Node, b: Node)
    ensures IsEdge(a, b) <==> IsEdge(b, a)
    ensures IsEdge(a, b) ==>
              var there, back := Lookup(a, b).value, Lookup(b, a).value;
              there.length == back.length && there.fromDir == back.toDir && there.toDir == back.fromDir
  {
  }

  /** No two roads leave a node on the same side. */
  lemma OneRoadPerSide(a: Node, b: Node, c: Node)
    requires IsEdge(a, b) && IsEdge(a, c)
    ensures IsIntersection(a) && Lookup(a, b).value.fromDir == Lookup(a, c).value.fromDir ==> b == c
  {
  }

  /** Every edge is longer than the 0.01 m step-back used at its end, has an arrival direction
      exactly when it ends in an intersection, and no edge is a loop. */
  lemma EdgeTableShape(a: Node, b: Node)
    requires IsEdge(a, b)
    ensures Lookup(a, b).value.length >= 200.0
    ensures Lookup(a, b).value.toDir.Some? <==> IsIntersection(b)
    ensures Lookup(a, b).value.fromDir.Some? <==> IsIntersection(a)
    ensures a != b
    ensures IsIntersection(a) || IsIntersection(b)
  {
  }

  ghost predicate IsPath(r: Route) {
    |r| > 0 && forall i :: 0 <= i < |r| - 1 ==> IsEdge(r[i], r[i + 1])
  }

  ghost predicate Connects(r: Route, s: Node, t: Node) {
    IsPath(r) && r[0] == s && r[|r| - 1] == t
  }

  lemma PathCons(s: Node, tail: Route)
    requires IsPath(tail) && IsEdge(s, tail[0])
    ensures IsPath([s] + tail)
  {
    var r := [s] + tail;
    forall i | 0 <= i < |r| - 1 ensures IsEdge(r[i], r[i + 1]) {
      if i > 0 {
        assert IsEdge(tail[i - 1], tail[i - 1 + 1]);
      }
    }
  }

  lemma PathTail(p: Route)
    requires IsPath(p) && |p| > 1
    ensures IsEdge(p[0], p[1]) && IsPath(p[1..])
  {
    forall i | 0 <= i < |p[1..]| - 1 ensures IsEdge(p[1..][i], p[1..][i + 1]) {
      assert IsEdge(p[i + 1], p[i + 1 + 1]);
    }
    assert IsEdge(p[0], p[0 + 1]);
  }

  lemma PathJoin(p: Route, q: Route)
    requires IsPath(p) && IsPath(q) && IsEdge(p[|p| - 1], q[0])
    ensures IsPath(p + q)
  {
    var r := p + q;
    forall i | 0 <= i < |r| - 1 ensures IsEdge(r[i], r[i + 1]) {
      if i < |p| - 1 {
        assert IsEdge(p[i], p[i + 1]);
      } else if i >= |p| {
        assert IsEdge(q[i - |p|], q[i - |p| + 1]);
      }
    }
  }

  function PathLength(r: Route): (len: real)
    ensures len >= 0.0
  {
    if |r| < 2 then 0.0
    else
      (if IsEdge(r[0], r[1]) then Lookup(r[0], r[1]).value.length else 0.0) + PathLength(r[1..])
  }

  // ----- shortest-path search -----

  /** A shortest route from `s` to `t` whose nodes after `s` are all in `free`, if there is one. */
  function Search(s: Node, t: Node, free: set<Node>): (r: Option<Route>)
    decreases |free|, |ALL_NODES| + 1
  {
    if s == t then Some([s]) else Scan(ALL_NODES, s, t, free)
  }

  /** The best continuation of `s` over the candidate first hops `hops`. */
  function Scan(hops: seq<Node>, s: Node, t: Node, free: set<Node>): (r: Option<Route>)
    decreases |free|, |hops|
  {
    if hops == [] then None
    else
      var rest := Scan(hops[1..], s, t, free);
      var hop := hops[0];
      if hop !in free || !IsEdge(s, hop) then rest
      else
        assert |free - {hop}| < |free|;
        match Search(hop, t, free - {hop})
        case None => rest
        case Some(tail) =>
          var r := [s] + tail;
          if rest.Some? && PathLength(rest.value) <= PathLength(r) then rest else Some(r)
  }

  /** A route from `s` to `t` whose nodes after `s` are in `free`. */
  ghost predicate RouteWithin(r: Route, s: Node, t: Node, free: set<Node>) {
    Connects(r, s, t) && forall i :: 0 < i < |r| ==> r[i] in free
  }

  lemma {:induction false} SearchSound(s: Node, t: Node, free: set<Node>)
    ensures Search(s, t, free).Some? ==> RouteWithin(Search(s, t, free).value, s, t, free)
    decreases |free|, |ALL_NODES| + 1
  {
    if s != t {
      ScanSound(ALL_NODES, s, t, free);
    }
  }

  lemma {:induction false} ScanSound(hops: seq<Node>, s: Node, t: Node, free: set<Node>)
    ensures Scan(hops, s, t, free).Some? ==> RouteWithin(Scan(hops, s, t, free).value, s, t, free)
    decreases |free|, |hops|
  {
    if hops != [] {
      ScanSound(hops[1..], s, t, free);
      var hop := hops[0];
      if hop in free && IsEdge(s, hop) {
        assert |free - {hop}| < |free|;
        SearchSound(hop, t, free - {hop});
        var found := Search(hop, t, free - {hop});
        if found.Some? {
          ExtendRoute(s, hop, t, free, found.value);
        }
      }
    }
  }

  lemma ExtendRoute(s: Node, hop: Node, t: Node, free: set<Node>, tail: Route)
    requires hop in free && IsEdge(s, hop) && RouteWithin(tail, hop, t, free - {hop})
    ensures RouteWithin([s] + tail, s, t, free)
  {
    PathCons(s, tail);
    var r := [s] + tail;
    forall i | 0 < i < |r| ensures r[i] in free {
      assert r[i] == tail[i - 1];
    }
  }

  ghost predicate Simple(r: Route) {
    forall i, j :: 0 <= i < j < |r| ==> r[i] != r[j]
  }

  /** No simple route through `free` beats the search. */
  lemma {:induction false} SearchOptimal(p: Route, s: Node, t: Node, free: set<Node>)
    requires Connects(p, s, t) && Simple(p)
    requires forall i :: 0 < i < |p| ==> p[i] in free
    ensures Search(s, t, free).Some? && PathLength(Search(s, t, free).value) <= PathLength(p)
    decreases |p|
  {
    if s != t {
      var hop, tail := p[1], p[1..];
      PathTail(p);
      assert |free - {hop}| < |free|;
      SearchOptimal(tail, hop, t, free - {hop});
      ScanOptimal(ALL_NODES, s, t, free, hop);
      var best := Search(hop, t, free - {hop}).value;
      SearchSound(hop, t, free - {hop});
      assert ([s] + best)[1..] == best;
    }
  }

  lemma {:induction false} ScanOptimal(hops: seq<Node>, s: Node, t: Node, free: set<Node>, hop: Node)
    requires hop in hops && hop in free && IsEdge(s, hop)
    requires Search(hop, t, free - {hop}).Some?
    ensures Scan(hops, s, t, free).Some?
    ensures PathLength(Scan(hops, s, t, free).value)
            <= PathLength([s] + Search(hop, t, free - {hop}).value)
  {
    if hops[0] != hop {
      ScanOptimal(hops[1..], s, t, free, hop);
    }
  }

  lemma {:induction false} LengthJoin(a: Route, x: Node, b: Route)
    ensures PathLength(a + [x] + b) == PathLength(a + [x]) + PathLength([x] + b)
  {
    if a == [] {
      assert a + [x] + b == [x] + b && a + [x] == [x];
    } else {
      var rest := a[1..];
      LengthJoin(rest, x, b);
      assert (a + [x] + b)[1..] == rest + [x] + b && (a + [x])[1..] == rest + [x];
      assert (rest + [x] + b)[0] == (rest + [x])[0];
    }
  }

  /** Cutting the loop `loop` at `x` out of a route keeps its ends and does not lengthen it. */
  lemma CutLoop(a: Route, x: Node, loop: Route, b: Route)
    requires IsPath(a + [x] + (loop + [x] + b))
    ensures IsPath(a + [x] + b)
    ensures PathLength(a + [x] + b) <= PathLength(a + [x] + (loop + [x] + b))
  {
    var p, q := a + [x] + (loop + [x] + b), a + [x] + b;
    LengthJoin(a, x, b);
    LengthJoin(a, x, loop + [x] + b);
    assert [x] + (loop + [x] + b) == [x] + loop + [x] + b;
    LengthJoin([x] + loop, x, b);
    forall k | 0 <= k < |q| - 1 ensures IsEdge(q[k], q[k + 1]) {
      var j := if k < |a| then k else k + |loop| + 1;
      assert q[k] == p[j] && q[k + 1] == p[j + 1];
    }
  }

  lemma SplitAtRepeat(p: Route, i: nat, j: nat)
    requires i < j < |p| && p[i] == p[j]
    ensures p == p[..i] + [p[i]] + (p[i + 1..j] + [p[i]] + p[j + 1..])
  {
  }

  /** Every route contains a simple one, over the same nodes, that is no longer. */
  lemma {:induction false} SimpleSubroute(p: Route, s: Node, t: Node) returns (q: Route)
    requires Connects(p, s, t)
    ensures Connects(q, s, t) && Simple(q) && PathLength(q) <= PathLength(p)
    ensures forall x :: x in q ==> x in p
    decreases |p|
  {
    if Simple(p) {
      q := p;
    } else {
      var i, j :| 0 <= i < j < |p| && p[i] == p[j];
      var a, x, loop, b := p[..i], p[i], p[i + 1..j], p[j + 1..];
      SplitAtRepeat(p, i, j);
      CutLoop(a, x, loop, b);
      q := SimpleSubroute(a + [x] + b, s, t);
    }
  }

  // ----- the two route queries -----

  const EVERY_NODE: set<Node> := {A, B, C, D, N1, W1, S1, E1, E2}

  function ComputeRoute(s: Node, t: Node): (r: Route)
  {
    if s == t then [s]
    else match Search(s, t, EVERY_NODE - {s}) case Some(r) => r case None => [s]
  }

  function ComputeRouteAvoiding(s: Node, t: Node, avoid: Node): (r: Route)
  {
    if s == t then [s]
    else
      var gone := if avoid != s && avoid != t then {avoid} else {};
      match Search(s, t, EVERY_NODE - {s} - gone)
      case Some(r) => r
      case None => ComputeRoute(s, t)
  }

  /** A route out of a search that may use every node except those in `gone`. */
  lemma {:induction false} SearchShortest(s: Node, t: Node, gone: set<Node>, p: Route)
    requires Connects(p, s, t) && s !in gone
    requires forall x :: x in p ==> x !in gone
    ensures Search(s, t, EVERY_NODE - {s} - gone).Some?
    ensures PathLength(Search(s, t, EVERY_NODE - {s} - gone).value) <= PathLength(p)
  {
    var q := SimpleSubroute(p, s, t);
    forall i | 0 < i < |q| ensures q[i] in EVERY_NODE - {s} - gone {
      assert q[0] != q[i];
      assert q[i] in p;
    }
    SearchOptimal(q, s, t, EVERY_NODE - {s} - gone);
  }

  /** Every node reaches every other: through intersection A. */
  lemma PathThroughA(s: Node, t: Node) returns (p: Route)
    ensures Connects(p, s, t)
  {
    var to := match s
      case A => [A] case B => [B, A] case C => [C, A] case D => [D, B, A] case N1 => [N1, A]
      case W1 => [W1, A] case S1 => [S1, B, A] case E1 => [E1, B, A] case E2 => [E2, D, B, A];
    var fro := match t
      case A => [] case B => [B] case C => [C] case D => [B, D] case N1 => [N1]
      case W1 => [W1] case S1 => [B, S1] case E1 => [B, E1] case E2 => [B, D, E2];
    p := to + fro;
  }

  /** `compute_route` returns a path with the requested ends, and no path between them is shorter. */
  lemma ComputeRouteIsShortest(s: Node, t: Node)
    ensures Connects(ComputeRoute(s, t), s, t)
    ensures s != t ==> |ComputeRoute(s, t)| > 1
    ensures forall p :: Connects(p, s, t) ==> PathLength(ComputeRoute(s, t)) <= PathLength(p)
  {
    if s != t {
      var witness0 := PathThroughA(s, t);
      assert EVERY_NODE - {s} - {} == EVERY_NODE - {s};
      SearchShortest(s, t, {}, witness0);
      SearchSound(s, t, EVERY_NODE - {s});
      forall p | Connects(p, s, t)
        ensures PathLength(ComputeRoute(s, t)) <= PathLength(p)
      {
        SearchShortest(s, t, {}, p);
      }
    }
  }

  /** `compute_route_avoiding` always returns a path with the requested ends.  It misses the
      avoided node whenever some path does, and then it is shortest among the paths that miss it;
      the fallback through the avoided node is taken only when no path misses it. */
  lemma ComputeRouteAvoidingSpec(s: Node, t: Node, avoid: Node)
    requires avoid != s && avoid != t
    ensures var r := ComputeRouteAvoiding(s, t, avoid);
            && Connects(r, s, t)
            && (avoid !in r <==> exists p :: Connects(p, s, t) && avoid !in p)
            && (forall p :: Connects(p, s, t) && avoid !in p ==> PathLength(r) <= PathLength(p))
  {
    var r := ComputeRouteAvoiding(s, t, avoid);
    ComputeRouteIsShortest(s, t);
    SearchSound(s, t, EVERY_NODE - {s} - {avoid});
    forall p | Connects(p, s, t) && avoid !in p
      ensures PathLength(r) <= PathLength(p) && avoid !in r
    {
      SearchShortest(s, t, {avoid}, p);
    }
  }

  /** Whatever the avoided node, the result connects the two ends. */
  lemma ComputeRouteAvoidingConnects(s: Node, t: Node, avoid: Node)
    ensures Connects(ComputeRouteAvoiding(s, t, avoid), s, t)
  {
    ComputeRouteIsShortest(s, t);
    if avoid != s && avoid != t {
      ComputeRouteAvoidingSpec(s, t, avoid);
    } else {
      assert EVERY_NODE - {s} - {} == EVERY_NODE - {s};
    }
  }

  /** Replacing the part of a route after position `i` by another route from that node. */
  lemma SpliceRoute(r: Route, i: nat, detour: Route)
    requires IsPath(r) && i < |r| && Connects(detour, r[i], r[|r| - 1]) && |detour| > 1
    ensures var q := r[..i + 1] + detour[1..];
            IsPath(q) && q[|q| - 1] == r[|r| - 1] && q[..i + 1] == r[..i + 1] && q[i + 1] == detour[1]
  {
    PathTail(detour);
    var head := r[..i + 1];
    forall k | 0 <= k < |head| - 1 ensures IsEdge(head[k], head[k + 1]) {
      assert IsEdge(r[k], r[k + 1]);
    }
    PathJoin(head, detour[1..]);
  }

  lemma {:induction false} EdgesAtLeast200(p: Route)
    requires IsPath(p)
    ensures PathLength(p) >= 200.0 * (|p| - 1) as real
  {
    if |p| > 1 {
      PathTail(p);
      EdgesAtLeast200(p[1..]);
    }
  }
}
