/** What the shortest routes of `simulator/network.py` look like: where a destination occurs on a route,
    which nodes lie inside the routes that vehicles are spawned with, and what repeated rerouting adds. */
module Routes {
  import opened Options
  import opened Network

  predicate IsBoundary(n: Node) {
    !IsIntersection(n)
  }

  /** No path between the same ends that misses `gone` is shorter. */
  ghost predicate IsShortest(r: Route, s: Node, t: Node, gone: set<Node>) {
    && Connects(r, s, t) && (forall x :: x in r ==> x !in gone)
    && forall p :: Connects(p, s, t) && (forall x :: x in p ==> x !in gone) ==> PathLength(r) <= PathLength(p)
  }

  ghost predicate OnlyAtEnd(r: Route, t: Node) {
    forall k :: 0 <= k < |r| - 1 ==> r[k] != t
  }

  ghost predicate InteriorIsIntersections(r: Route) {
    forall k :: 0 < k < |r| - 1 ==> IsIntersection(r[k])
  }

  // ----- cutting and joining -----

  lemma SplitAt(r: Route, k: nat)
    requires IsPath(r) && k < |r|
    ensures IsPath(r[..k + 1]) && IsPath(r[k..])
    ensures PathLength(r) == PathLength(r[..k + 1]) + PathLength(r[k..])
  {
    hide PathLength;
    PathsAt(r, k);
    LengthsAt(r, k);
  }

  lemma PathsAt(r: Route, k: nat)
    requires IsPath(r) && k < |r|
    ensures IsPath(r[..k + 1]) && IsPath(r[k..])
  {
    hide IsEdge;
    var head, rest := r[..k + 1], r[k..];
    forall i | 0 <= i < |head| - 1 ensures IsEdge(head[i], head[i + 1]) {
      assert IsEdge(r[i], r[i + 1]);
    }
    forall i | 0 <= i < |rest| - 1 ensures IsEdge(rest[i], rest[i + 1]) {
      assert IsEdge(r[k + i], r[k + i + 1]);
    }
  }

  lemma LengthsAt(r: Route, k: nat)
    requires IsPath(r) && k < |r|
    ensures PathLength(r) == PathLength(r[..k + 1]) + PathLength(r[k..])
  {
    hide PathLength, IsPath;
    LengthJoin(r[..k], r[k], r[k + 1..]);
    assert r[..k] + [r[k]] == r[..k + 1] && [r[k]] + r[k + 1..] == r[k..] && r[..k] + [r[k]] + r[k + 1..] == r;
  }

  /** A path to `x` continued by the rest of `r` after `x`. */
  lemma JoinAt(q: Route, r: Route, k: nat)
    requires IsPath(q) && IsPath(r) && k < |r| && q[|q| - 1] == r[k]
    ensures var p := q + r[k + 1..];
            IsPath(p) && p[0] == q[0] && p[|p| - 1] == r[|r| - 1] && PathLength(p) == PathLength(q) + PathLength(r[k..])
  {
    var p := q + r[k + 1..];
    SplitAt(r, k);
    forall i | 0 <= i < |p| - 1 ensures IsEdge(p[i], p[i + 1]) {
      if i < |q| - 1 {
        assert IsEdge(q[i], q[i + 1]);
      } else {
        var j := k + 1 + (i - |q|);
        assert IsEdge(r[j], r[j + 1]);
        assert p[i] == r[j] && p[i + 1] == r[j + 1];
      }
    }
    LengthJoin(q[..|q| - 1], r[k], r[k + 1..]);
    assert q[..|q| - 1] + [r[k]] == q && [r[k]] + r[k + 1..] == r[k..] && q[..|q| - 1] + [r[k]] + r[k + 1..] == p;
  }

  /** Stopping where a route first meets its end node makes it shorter. */
  lemma PrefixShorter(r: Route, k: nat, s: Node, t: Node)
    requires Connects(r, s, t) && k < |r| - 1
    ensures PathLength(r[..k + 1]) < PathLength(r) && (r[k] == t ==> Connects(r[..k + 1], s, t))
  {
    SplitAt(r, k);
    EdgesAtLeast200(r[k..]);
  }

  /** A shortest route meets its destination only at its end. */
  lemma ShortestEndsOnce(r: Route, s: Node, t: Node, gone: set<Node>)
    requires IsShortest(r, s, t, gone)
    ensures OnlyAtEnd(r, t)
  {
    forall k: nat | k < |r| - 1 ensures r[k] != t {
      PrefixShorter(r, k, s, t);
    }
  }

  lemma ComputeRouteEndsOnce(s: Node, t: Node)
    ensures OnlyAtEnd(ComputeRoute(s, t), t)
  {
    ComputeRouteIsShortest(s, t);
    ShortestEndsOnce(ComputeRoute(s, t), s, t, {});
  }

  lemma ComputeRouteAvoidingEndsOnce(s: Node, t: Node, avoid: Node)
    ensures OnlyAtEnd(ComputeRouteAvoiding(s, t, avoid), t)
  {
    ComputeRouteEndsOnce(s, t);
    var r := ComputeRouteAvoiding(s, t, avoid);
    if avoid != s && avoid != t && avoid !in r {
      ComputeRouteAvoidingSpec(s, t, avoid);
      ShortestEndsOnce(r, s, t, {avoid});
    } else {
      FallsBack(s, t, avoid);
    }
  }

  /** A result through the avoided node is the plain route. */
  lemma FallsBack(s: Node, t: Node, avoid: Node)
    requires avoid == s || avoid == t || avoid in ComputeRouteAvoiding(s, t, avoid)
    ensures ComputeRouteAvoiding(s, t, avoid) == ComputeRoute(s, t)
  {
    assert EVERY_NODE - {s} - {} == EVERY_NODE - {s};
    if avoid != s && avoid != t {
      SearchSound(s, t, EVERY_NODE - {s} - {avoid});
    }
  }

  // ----- routes out of a boundary node -----

  /** Distances from each boundary node, in metres. */
  function Dist(b: Node, v: Node): real {
    match b
    case N1 => (match v case A => 200.0 case B => 500.0 case C => 480.0 case D => 760.0 case N1 => 0.0 case W1 => 450.0
                        case S1 => 680.0 case E1 => 720.0 case E2 => 970.0)
    case W1 => (match v case A => 250.0 case B => 550.0 case C => 530.0 case D => 810.0 case N1 => 450.0 case W1 => 0.0
                        case S1 => 730.0 case E1 => 770.0 case E2 => 1020.0)
    case S1 => (match v case A => 480.0 case B => 340.0 case C => 200.0 case D => 500.0 case N1 => 680.0 case W1 => 730.0
                        case S1 => 0.0 case E1 => 560.0 case E2 => 710.0)
    case E1 => (match v case A => 520.0 case B => 220.0 case C => 600.0 case D => 300.0 case N1 => 720.0 case W1 => 770.0
                        case S1 => 560.0 case E1 => 0.0 case E2 => 510.0)
    case _  => (match v case A => 770.0 case B => 470.0 case C => 510.0 case D => 210.0 case N1 => 970.0 case W1 => 1020.0
                        case S1 => 710.0 case E1 => 510.0 case E2 => 0.0)
  }

  /** No edge beats the distances. */
  lemma DistEdge(b: Node, u: Node, v: Node)
    requires IsBoundary(b) && IsEdge(u, v)
    ensures Dist(b, v) <= Dist(b, u) + Lookup(u, v).value.length
  {
  }

  /** So no path does. */
  lemma {:induction false} DistBound(b: Node, p: Route)
    requires IsBoundary(b) && IsPath(p)
    ensures PathLength(p) >= Dist(b, p[|p| - 1]) - Dist(b, p[0])
  {
    if |p| > 1 {
      PathTail(p);
      DistBound(b, p[1..]);
      DistEdge(b, p[0], p[1]);
    }
  }

  /** A path from `b` to an intersection that has that distance. */
  function Direct(b: Node, w: Node): Route {
    match b
    case N1 => (match w case A => [N1, A] case B => [N1, A, B] case C => [N1, A, C] case _ => [N1, A, B, D])
    case W1 => (match w case A => [W1, A] case B => [W1, A, B] case C => [W1, A, C] case _ => [W1, A, B, D])
    case S1 => (match w case A => [S1, C, A] case B => [S1, B] case C => [S1, C] case _ => [S1, C, D])
    case E1 => (match w case A => [E1, B, A] case B => [E1, B] case C => [E1, D, C] case _ => [E1, D])
    case _  => (match w case A => [E2, D, B, A] case B => [E2, D, B] case C => [E2, D, C] case _ => [E2, D])
  }

  lemma DirectIsShort(b: Node, w: Node)
    requires IsBoundary(b) && IsIntersection(w)
    ensures Connects(Direct(b, w), b, w) && PathLength(Direct(b, w)) == Dist(b, w)
  {
    var r := Direct(b, w);
    Unrolled(r);
  }

  /** The length of a path of at most four edges. */
  lemma Unrolled(r: Route)
    requires |r| > 0
    ensures |r| == 1 ==> PathLength(r) == 0.0
    ensures |r| == 2 ==> PathLength(r) == Hop(r[0], r[1])
    ensures |r| == 3 ==> PathLength(r) == Hop(r[0], r[1]) + Hop(r[1], r[2])
    ensures |r| == 4 ==> PathLength(r) == Hop(r[0], r[1]) + Hop(r[1], r[2]) + Hop(r[2], r[3])
    ensures |r| == 5 ==> PathLength(r) == Hop(r[0], r[1]) + Hop(r[1], r[2]) + Hop(r[2], r[3]) + Hop(r[3], r[4])
    decreases |r|
  {
    if 1 < |r| <= 5 {
      Unrolled(r[1..]);
    }
  }

  function Hop(a: Node, b: Node): real {
    if IsEdge(a, b) then Lookup(a, b).value.length else 0.0
  }

  /** Going to a neighbour of a foreign boundary node by way of that node is a detour. */
  lemma DetourByBoundary(b: Node, x: Node, w: Node)
    requires IsBoundary(b) && IsBoundary(x) && x != b && IsEdge(x, w)
    ensures Dist(b, x) + Lookup(x, w).value.length > Dist(b, w)
  {
  }

  /** A shortest route out of a boundary node has only intersections inside. */
  lemma SpawnRouteInterior(r: Route, b: Node, t: Node)
    requires IsBoundary(b) && IsShortest(r, b, t, {})
    ensures InteriorIsIntersections(r)
  {
    forall k | 0 < k < |r| - 1 ensures IsIntersection(r[k]) {
      if IsBoundary(r[k]) {
        BoundaryInside(r, b, t, k);
      }
    }
  }

  /** Every initial part of a shortest route is itself shortest. */
  lemma PrefixIsShortest(r: Route, s: Node, t: Node, k: nat, q: Route)
    requires IsShortest(r, s, t, {}) && k < |r| && Connects(q, s, r[k])
    ensures PathLength(r[..k + 1]) <= PathLength(q)
  {
    SplitAt(r, k);
    JoinAt(q, r, k);
    assert Connects(q + r[k + 1..], s, t);
  }

  lemma BoundaryInside(r: Route, b: Node, t: Node, k: nat)
    requires IsBoundary(b) && IsShortest(r, b, t, {}) && 0 < k < |r| - 1
    ensures IsIntersection(r[k])
  {
    hide Dist, Direct, Lookup, IsShortest;
    RouteOf(r, b, t);
    if r[k] == b {
      SplitAt(r, k);
      EdgesAtLeast200(r[..k + 1]);
      Unrolled([b]);
      PrefixIsShortest(r, b, t, k, [b]);
    } else if IsBoundary(r[k]) {
      ByIntersection(r, b, k);
      DirectIsShort(b, r[k + 1]);
      PrefixIsShortest(r, b, t, k + 1, Direct(b, r[k + 1]));
    }
  }

  lemma RouteOf(r: Route, s: Node, t: Node)
    requires IsShortest(r, s, t, {})
    ensures Connects(r, s, t)
  {
  }

  /** The part of a route up to the node after a foreign boundary node is longer than need be. */
  lemma ByIntersection(r: Route, b: Node, k: nat)
    requires IsPath(r) && r[0] == b && IsBoundary(b) && 0 < k < |r| - 1 && IsBoundary(r[k]) && r[k] != b
    ensures IsIntersection(r[k + 1]) && PathLength(r[..k + 2]) > Dist(b, r[k + 1])
  {
    var x, w, head := r[k], r[k + 1], r[..k + 2];
    assert IsEdge(r[k], r[k + 1]);
    EdgeTableShape(x, w);
    DetourByBoundary(b, x, w);
    SplitAt(r, k);
    DistBound(b, r[..k + 1]);
    SplitAt(r, k + 1);
    SplitAt(head, k);
    assert head[..k + 1] == r[..k + 1] && head[k..] == [x, w];
    Unrolled([x, w]);
    assert Dist(b, b) == 0.0;
  }

  /** What a vehicle is spawned with: the interior of its route has no boundary node. */
  lemma SpawnRoutes(b: Node, t: Node)
    requires IsBoundary(b)
    ensures InteriorIsIntersections(ComputeRoute(b, t)) && OnlyAtEnd(ComputeRoute(b, t), t)
  {
    ComputeRouteIsShortest(b, t);
    SpawnRouteInterior(ComputeRoute(b, t), b, t);
    ComputeRouteEndsOnce(b, t);
  }

  // ----- a chain of reroutes through a boundary node -----

  lemma ShortRoute(r: Route, s: Node, t: Node, len: real, n: nat)
    requires Connects(r, s, t) && PathLength(r) <= len < 200.0 * n as real
    ensures |r| <= n
  {
    EdgesAtLeast200(r);
    assert (|r| - 1) as real < n as real;
  }

  lemma FirstHop(v: Node)
    ensures IsEdge(N1, v) ==> v == A
    ensures IsEdge(A, v) ==> v == N1 || v == W1 || v == B || v == C
    ensures IsEdge(C, v) ==> v == A || v == D || v == S1
  {
  }

  lemma LastHop(u: Node)
    ensures IsEdge(u, E1) ==> u == B || u == D
    ensures IsEdge(u, D) ==> u == B || u == C || u == E1 || u == E2
  {
  }

  /** The first and last edges of a path. */
  lemma Ends(r: Route)
    requires IsPath(r)
    ensures |r| > 1 ==> IsEdge(r[0], r[1]) && IsEdge(r[|r| - 2], r[|r| - 1]) && r[1] in r && r[|r| - 2] in r
    ensures |r| > 2 ==> IsEdge(r[1], r[2]) && IsEdge(r[|r| - 3], r[|r| - 2])
  {
    if |r| > 1 {
      assert IsEdge(r[0], r[0 + 1]);
      assert IsEdge(r[|r| - 2], r[|r| - 2 + 1]);
    }
    if |r| > 2 {
      assert IsEdge(r[1], r[1 + 1]);
      assert IsEdge(r[|r| - 3], r[|r| - 3 + 1]);
    }
  }

  lemma Same(p: Route)
    ensures |p| == 4 ==> p == [p[0], p[1], p[2], p[3]]
  {
  }

  lemma FromN1ToE1()
    ensures ComputeRoute(N1, E1) == [N1, A, B, E1]
  {
    ComputeRouteIsShortest(N1, E1);
    var r, p := ComputeRoute(N1, E1), [N1, A, B, E1];
    Unrolled(p);
    assert Connects(p, N1, E1);
    ShortRoute(r, N1, E1, 720.0, 4);
    hide ComputeRoute, PathLength;
    Ends(r);
    FirstHop(r[1]);
    LastHop(r[|r| - 2]);
    if |r| == 4 {
      FirstHop(r[2]);
      Same(r);
    } else {
      FirstHop(E1);
    }
  }

  /** A known path around a node bounds the route around it. */
  lemma AtMost(p: Route, s: Node, t: Node, avoid: Node)
    requires Connects(p, s, t) && avoid !in p
    ensures var r := ComputeRouteAvoiding(s, t, avoid);
            Connects(r, s, t) && avoid !in r && PathLength(r) <= PathLength(p)
  {
    assert s == p[0] && t == p[|p| - 1];
    ComputeRouteAvoidingSpec(s, t, avoid);
  }

  /** Around B, a vehicle at A goes by C and D. */
  lemma FromAAroundB()
    ensures ComputeRouteAvoiding(A, E1, B) == [A, C, D, E1]
  {
    var r, p := ComputeRouteAvoiding(A, E1, B), [A, C, D, E1];
    Unrolled(p);
    hide ComputeRouteAvoiding, PathLength;
    AtMost(p, A, E1, B);
    ShortRoute(r, A, E1, 880.0, 5);
    Ends(r);
    AroundB(r);
  }

  lemma AroundB(r: Route)
    requires IsPath(r) && 1 < |r| <= 5 && r[0] == A && r[|r| - 1] == E1 && B !in r
    ensures r == [A, C, D, E1]
  {
    Ends(r);
    FirstHop(r[1]);
    LastHop(r[|r| - 2]);
    if |r| > 2 {
      LastHop(r[|r| - 3]);
      assert r[|r| - 3] in r && r[1] in r;
      FirstHop(r[2]);
    }
    if |r| == 4 {
      Same(r);
    }
  }

  /** Around D, a vehicle at C goes by the boundary node S1 and by B. */
  lemma FromCAroundD()
    ensures ComputeRouteAvoiding(C, E1, D) == [C, S1, B, E1]
  {
    var r, p := ComputeRouteAvoiding(C, E1, D), [C, S1, B, E1];
    Unrolled(p);
    hide ComputeRouteAvoiding, PathLength;
    AtMost(p, C, E1, D);
    ShortRoute(r, C, E1, 760.0, 4);
    AroundD(r);
  }

  lemma AroundD(r: Route)
    requires IsPath(r) && 1 < |r| <= 4 && r[0] == C && r[|r| - 1] == E1 && D !in r && PathLength(r) <= 760.0
    ensures r == [C, S1, B, E1]
  {
    Ends(r);
    FirstHop(r[1]);
    LastHop(r[|r| - 2]);
    if |r| == 4 {
      Unrolled(r);
      Same(r);
    } else {
      FirstHop(E1);
    }
  }
}
