/** What path queries promise, stated on the records of the graph and the constraints alone
    (internal/topology/graph.go:78-224). */
module PathLaws {
  import opened Entities
  import opened Graphs
  import opened Shortest
  import opened Routes
  import opened Alternatives

  // ---------------------------------------------------------------- links and weights

  /** The metric a hop counts with. */
  ghost predicate Weighs(l: Link, metric: PathMetric, w: int) {
    && (metric.Te? ==> l.teMetric > 0 && w == l.teMetric)
    && (metric.Delay? ==> l.delay > 0 && w == l.delay)
    && (metric.Igp? ==> w == if l.igpMetric == 0 then 1 else l.igpMetric)
  }

  lemma MetricExact(l: Link, metric: PathMetric, w: int)
    ensures Weighs(l, metric, w) <==> Metric(l, metric).Some? && Metric(l, metric).value == w
  {
  }

  /** A link the constraints forbid. */
  ghost predicate Forbidden(l: Link, c: Constraints) {
    || (c.multiTopologyId > 0 && c.multiTopologyId != l.multiTopologyId)
    || (c.minReservable > 0.0 && l.reservable < c.minReservable)
    || (exists i :: 0 <= i < |c.avoidLinkIds| && c.avoidLinkIds[i] == l.meta.id)
    || (exists i :: 0 <= i < |c.avoidNodeIds| &&
                    (c.avoidNodeIds[i] == l.localNodeId || c.avoidNodeIds[i] == l.remoteNodeId))
    || (exists i :: 0 <= i < |c.requireGroups| && c.requireGroups[i] !in l.adminGroups)
    || (exists i :: 0 <= i < |c.excludeGroups| && c.excludeGroups[i] in l.adminGroups)
  }

  lemma EligibleExact(l: Link, c: Option<Constraints>)
    ensures IsEligible(l, c) <==> c.None? || !Forbidden(l, c.value)
  {
    if c.Some? {
      var c := c.value;
      assert l.meta.id in c.avoidLinkIds ==> exists i :: 0 <= i < |c.avoidLinkIds| && c.avoidLinkIds[i] == l.meta.id;
      assert forall v | v in c.requireGroups :: exists i :: 0 <= i < |c.requireGroups| && c.requireGroups[i] == v;
      assert forall v | v in c.excludeGroups :: exists i :: 0 <= i < |c.excludeGroups| && c.excludeGroups[i] == v;
    }
  }

  /** A link that leaves its local node in the graph, is not forbidden and carries the metric. */
  ghost predicate Passable(q: Query, l: Link) {
    && l.localNodeId in q.g.adj && l in q.g.adj[l.localNodeId]
    && (q.c.None? || !Forbidden(l, q.c.value))
    && (q.metric.Te? ==> l.teMetric > 0) && (q.metric.Delay? ==> l.delay > 0)
  }

  lemma PassableIsUsable(q: Query, l: Link)
    ensures Passable(q, l) <==> q.Usable(l)
  {
    EligibleExact(l, q.c);
  }

  /** A walk of passable links, each starting where the one before ends. */
  ghost predicate IsWalk(q: Query, p: seq<Link>, u: string, v: string) {
    && (forall i | 0 <= i < |p| :: Passable(q, p[i]))
    && (forall i | 0 < i < |p| :: p[i].localNodeId == p[i - 1].remoteNodeId)
    && (if p == [] then u == v else p[0].localNodeId == u && p[|p| - 1].remoteNodeId == v)
  }

  /** The sum of the hop metrics. */
  function HopSum(metric: PathMetric, p: seq<Link>): (w: nat) {
    if p == [] then 0
    else
      var l := p[0];
      (match metric
       case Te => l.teMetric
       case Delay => l.delay
       case Igp => if l.igpMetric == 0 then 1 else l.igpMetric) + HopSum(metric, p[1..])
  }

  lemma WalkFront(q: Query, p: seq<Link>, u: string, v: string)
    requires p != [] && IsWalk(q, p, u, v)
    ensures IsWalk(q, Front(p), u, Last(p).localNodeId)
  {
  }

  lemma {:induction false} WalkIsChain(q: Query, p: seq<Link>, u: string, v: string)
    requires IsWalk(q, p, u, v)
    ensures IsChain(q, p, u, v)
    decreases |p|
  {
    if p != [] {
      WalkFront(q, p, u, v);
      PassableIsUsable(q, Last(p));
      WalkIsChain(q, Front(p), u, Last(p).localNodeId);
    }
  }

  lemma {:induction false} ChainIsWalk(q: Query, p: seq<Link>, u: string, v: string)
    requires IsChain(q, p, u, v)
    ensures IsWalk(q, p, u, v)
    decreases |p|
  {
    if p != [] {
      ChainIsWalk(q, Front(p), u, Last(p).localNodeId);
      PassableIsUsable(q, Last(p));
      assert p == Front(p) + [Last(p)];
    }
  }

  lemma {:induction false} HopSumSnoc(metric: PathMetric, p: seq<Link>, l: Link)
    ensures HopSum(metric, p + [l]) == HopSum(metric, p) + HopSum(metric, [l])
  {
    if p == [] {
      assert p + [l] == [l];
    } else {
      assert (p + [l])[1..] == p[1..] + [l];
      HopSumSnoc(metric, p[1..], l);
    }
  }

  lemma {:induction false} CostIsHopSum(q: Query, p: seq<Link>, u: string, v: string)
    requires IsWalk(q, p, u, v)
    ensures Cost(q, p) == HopSum(q.metric, p)
    decreases |p|
  {
    if p != [] {
      WalkFront(q, p, u, v);
      CostIsHopSum(q, Front(p), u, Last(p).localNodeId);
      HopSumSnoc(q.metric, Front(p), Last(p));
      assert p == Front(p) + [Last(p)];
      var l := Last(p);
      assert Passable(q, l);
      assert HopSum(q.metric, [l]) == q.Weight(l) by {
        assert [l][1..] == [];
        MetricExact(l, q.metric, HopSum(q.metric, [l]));
      }
    }
  }

  /** A path found is a cheapest walk: its total is the sum of its hop metrics, and no walk has a lesser
      sum. */
  lemma PathIsBestWalk(q: Query, source: string, destination: string, links: seq<Link>, total: uint64)
    requires IsCanonical(q, links, source, destination) && total == Cost(q, links)
    ensures IsWalk(q, links, source, destination) && total == HopSum(q.metric, links)
    ensures forall p | IsWalk(q, p, source, destination) :: total <= HopSum(q.metric, p)
  {
    ChainIsWalk(q, links, source, destination);
    CostIsHopSum(q, links, source, destination);
    forall p | IsWalk(q, p, source, destination) ensures total <= HopSum(q.metric, p) {
      WalkIsChain(q, p, source, destination);
      CostIsHopSum(q, p, source, destination);
    }
  }

  /** Two nodes are linked exactly when they are in the graph and some walk between them has a sum of hop
      metrics that fits in 64 bits. */
  lemma LinkedExactly(q: Query, u: string, v: string)
    ensures Linked(q, u, v) <==>
            && u in q.g.nodes && v in q.g.nodes
            && exists p :: IsWalk(q, p, u, v) && HopSum(q.metric, p) <= 0xFFFF_FFFF_FFFF_FFFF
  {
    forall p | WithinRange(q, p, u, v) ensures IsWalk(q, p, u, v) && HopSum(q.metric, p) <= MAX_U64 {
      ChainIsWalk(q, p, u, v);
      CostIsHopSum(q, p, u, v);
    }
    forall p | IsWalk(q, p, u, v) && HopSum(q.metric, p) <= MAX_U64 ensures WithinRange(q, p, u, v) {
      WalkIsChain(q, p, u, v);
      CostIsHopSum(q, p, u, v);
    }
  }

  /** A path is found exactly when the two ends are linked. */
  lemma FoundExactly(q: Query, source: string, destination: string, r: PathResult)
    requires r.NoPath? <==> source !in q.g.nodes || destination !in q.g.nodes
                            || forall p :: !WithinRange(q, p, source, destination)
    ensures r.Path? <==> Linked(q, source, destination)
  {
  }

  // ---------------------------------------------------------------- routes through include nodes

  /** The nodes that the constraints ask to visit. */
  function Includes(q: Query): seq<string> {
    match q.c
    case Some(c) => c.includeNodeIds
    case None => []
  }

  /** The walk stands at the i-th include node after ks[i] links, in this order. */
  ghost predicate PassesBy(p: seq<Link>, source: string, includes: seq<string>, ks: seq<nat>) {
    && |ks| == |includes|
    && (forall i | 0 <= i < |ks| :: ks[i] <= |p| && NodesOf(source, p)[ks[i]] == includes[i])
    && (forall i, j | 0 <= i < j < |ks| :: ks[i] <= ks[j])
  }

  lemma NodesOfFront(u: string, p: seq<Link>, k: nat, i: nat)
    requires i <= k <= |p|
    ensures NodesOf(u, p[..k])[i] == NodesOf(u, p)[i]
  {
    if i > 0 { assert p[..k][i - 1] == p[i - 1]; }
  }

  lemma WaysFront(source: string, includes: seq<string>, last: string)
    ensures var ways := [source] + includes + [last];
            && Last(ways) == last
            && (includes == [] ==> Front(ways) == [source])
            && (includes != [] ==> Front(ways) == [source] + Front(includes) + [Last(includes)])
  {
    if includes != [] { assert includes == Front(includes) + [Last(includes)]; }
  }

  lemma PassesMore(p: seq<Link>, source: string, front: seq<string>, x: string, k: nat, rest: seq<nat>)
    requires k <= |p| && PassesBy(p[..k], source, front, rest) && NodesOf(source, p)[k] == x
    ensures PassesBy(p, source, front + [x], rest + [k])
  {
    forall i | 0 <= i < |rest| ensures NodesOf(source, p)[rest[i]] == front[i] {
      NodesOfFront(source, p, k, rest[i]);
    }
  }

  lemma PassesLess(p: seq<Link>, source: string, includes: seq<string>, ks: seq<nat>)
    requires includes != [] && PassesBy(p, source, includes, ks)
    ensures Last(ks) <= |p| && NodesOf(source, p)[Last(ks)] == Last(includes)
    ensures PassesBy(p[..Last(ks)], source, Front(includes), Front(ks))
  {
    var k := Last(ks);
    forall i | 0 <= i < |ks| - 1 ensures ks[i] <= k && NodesOf(source, p[..k])[ks[i]] == includes[i] {
      NodesOfFront(source, p, k, ks[i]);
    }
  }

  lemma EndUnique(q: Query, p: seq<Link>, u: string, v: string, v': string)
    requires IsChain(q, p, u, v) && IsChain(q, p, u, v')
    ensures v == v'
  {
  }

  lemma StandsAt(q: Query, p: seq<Link>, source: string, last: string, k: nat, x: string)
    requires IsChain(q, p, source, last) && k <= |p| && IsChain(q, p[..k], source, x)
    ensures NodesOf(source, p)[k] == x
  {
    PrefixIsChain(q, p, source, last, k);
    EndUnique(q, p[..k], source, x, NodesOf(source, p)[k]);
  }

  /** A chain visits source, includes and last in order exactly when it passes the includes so. */
  lemma {:induction false} VisitsPasses(q: Query, p: seq<Link>, source: string, includes: seq<string>, last: string)
    returns (ks: seq<nat>)
    requires Visits(q, p, [source] + includes + [last])
    ensures IsChain(q, p, source, last) && PassesBy(p, source, includes, ks)
    decreases |includes|
  {
    var ways := [source] + includes + [last];
    WaysFront(source, includes, last);
    VisitsIsChain(q, p, ways);
    if includes == [] { return []; }
    var k := VisitsSplit(q, p, ways);
    var rest := VisitsPasses(q, p[..k], source, Front(includes), Last(includes));
    StandsAt(q, p, source, last, k, Last(includes));
    PassesMore(p, source, Front(includes), Last(includes), k, rest);
    assert includes == Front(includes) + [Last(includes)];
    ks := rest + [k];
  }

  lemma VisitsJoin(q: Query, p: seq<Link>, ways: seq<string>, k: nat)
    requires |ways| > 1 && k <= |p| && Visits(q, p[..k], Front(ways))
    requires IsChain(q, p[k..], Last(Front(ways)), Last(ways))
    ensures Visits(q, p, ways)
  {
  }

  lemma {:induction false} PassesVisits(q: Query, p: seq<Link>, source: string, includes: seq<string>, last: string,
                                        ks: seq<nat>)
    requires IsChain(q, p, source, last) && PassesBy(p, source, includes, ks)
    ensures Visits(q, p, [source] + includes + [last])
    decreases |includes|
  {
    var ways := [source] + includes + [last];
    WaysFront(source, includes, last);
    if includes == [] {
      assert p[..0] == [] && p[0..] == p;
      VisitsJoin(q, p, ways, 0);
    } else {
      var k := Last(ks);
      PassesLess(p, source, includes, ks);
      PrefixIsChain(q, p, source, last, k);
      SuffixIsChain(q, p, source, last, k);
      PassesVisits(q, p[..k], source, Front(includes), Last(includes), Front(ks));
      VisitsJoin(q, p, ways, k);
    }
  }

  lemma WaypointsAre(q: Query, source: string, destination: string)
    ensures Waypoints(q, source, destination) == [source] + Includes(q) + [destination]
  {
  }

  /** A route is a walk from source to destination that visits the include nodes in the order given. */
  lemma RouteVisitsIncludes(q: Query, source: string, destination: string, r: Route) returns (ks: seq<nat>)
    requires IsRoute(q, source, destination, r)
    ensures IsWalk(q, LinksOf(r), source, destination)
    ensures PassesBy(LinksOf(r), source, Includes(q), ks)
  {
    TourVisits(q, LinksOf(r), Waypoints(q, source, destination));
    WaypointsAre(q, source, destination);
    ks := VisitsPasses(q, LinksOf(r), source, Includes(q), destination);
    ChainIsWalk(q, LinksOf(r), source, destination);
  }

  /** No walk that does so has a lesser sum of hop metrics. */
  lemma RouteIsBestWalk(q: Query, source: string, destination: string, r: Route, p: seq<Link>, ks: seq<nat>)
    requires IsRoute(q, source, destination, r)
    requires IsWalk(q, p, source, destination) && PassesBy(p, source, Includes(q), ks)
    ensures HopSum(q.metric, LinksOf(r)) <= HopSum(q.metric, p)
    ensures HopSum(q.metric, p) <= 0xFFFF_FFFF_FFFF_FFFF ==> r.total == HopSum(q.metric, LinksOf(r))
  {
    var ks' := RouteVisitsIncludes(q, source, destination, r);
    WalkIsChain(q, p, source, destination);
    WaypointsAre(q, source, destination);
    PassesVisits(q, p, source, Includes(q), destination, ks);
    TourIsCheapest(q, LinksOf(r), p, Waypoints(q, source, destination));
    CostIsHopSum(q, p, source, destination);
    CostIsHopSum(q, LinksOf(r), source, destination);
    WrapsToExact(Cost(q, LinksOf(r)), r.total);
  }

  /** Every two successive nodes of source, includes and destination are linked. */
  ghost predicate EveryLegLinked(q: Query, source: string, includes: seq<string>, destination: string) {
    if includes == [] then Linked(q, source, destination)
    else
      && Linked(q, source, includes[0])
      && (forall i | 0 < i < |includes| :: Linked(q, includes[i - 1], includes[i]))
      && Linked(q, includes[|includes| - 1], destination)
  }

  lemma WaysAt(source: string, includes: seq<string>, destination: string, ways: seq<string>)
    requires ways == [source] + includes + [destination]
    ensures ways[0] == source && ways[|includes| + 1] == destination
    ensures forall i | 0 <= i < |includes| :: ways[i + 1] == includes[i]
  {
  }

  lemma LegsOfWays(q: Query, source: string, includes: seq<string>, destination: string, ways: seq<string>)
    requires ways == [source] + includes + [destination] && AllLinked(q, ways)
    ensures EveryLegLinked(q, source, includes, destination)
  {
    WaysAt(source, includes, destination, ways);
    assert Linked(q, ways[0], ways[1]) && Linked(q, ways[|includes|], ways[|includes| + 1]);
    forall i | 0 < i < |includes| ensures Linked(q, includes[i - 1], includes[i]) {
      assert Linked(q, ways[i], ways[i + 1]);
    }
  }

  lemma WaysOfLegs(q: Query, source: string, includes: seq<string>, destination: string, ways: seq<string>)
    requires ways == [source] + includes + [destination] && EveryLegLinked(q, source, includes, destination)
    ensures AllLinked(q, ways)
  {
    WaysAt(source, includes, destination, ways);
    forall i | 0 <= i < |ways| - 1 ensures Linked(q, ways[i], ways[i + 1]) {
      if 0 < i < |includes| { assert Linked(q, includes[i - 1], includes[i]); }
    }
  }

  /** There is a route exactly when they are. */
  lemma RouteExactly(q: Query, source: string, destination: string, r: Option<Route>)
    requires Answers(q, source, destination, r)
    ensures r.Some? <==> EveryLegLinked(q, source, Includes(q), destination)
  {
    var includes, ways := Includes(q), Waypoints(q, source, destination);
    WaypointsAre(q, source, destination);
    if r.Some? {
      LegsOfWays(q, source, includes, destination, ways);
    } else if EveryLegLinked(q, source, includes, destination) {
      WaysOfLegs(q, source, includes, destination, ways);
    }
  }

  /** An alternative, too, is a walk under the constraints that visits the include nodes in order, with the
      selected total. */
  lemma AlternativeVisitsIncludes(q: Query, source: string, destination: string, first: Route, r: Route)
    returns (ks: seq<nat>)
    requires IsAlternative(q, source, destination, first, r)
    ensures IsWalk(q, LinksOf(r), source, destination)
    ensures PassesBy(LinksOf(r), source, Includes(q), ks)
    ensures r.total == first.total && WrapsTo(HopSum(q.metric, LinksOf(r)), r.total)
  {
    WaypointsAre(q, source, destination);
    ks := VisitsPasses(q, LinksOf(r), source, Includes(q), destination);
    ChainIsWalk(q, LinksOf(r), source, destination);
    CostIsHopSum(q, LinksOf(r), source, destination);
  }
}
