/** Routes through ordered waypoints and their equal-cost alternatives
    (internal/topology/graph.go:191-268). */
module Routes {
  import opened Entities
  import opened Graphs
  import opened Shortest

  datatype Hop = Hop(index: nat, node: Option<Node>, outgoing: Option<Link>)

  datatype Route = Route(total: uint64, delay: uint64, bottleneck: real, hops: seq<Hop>)

  const TWO_64: real := 18446744073709551616.0
  const TWO_256: real := TWO_64 * TWO_64 * TWO_64 * TWO_64

  /** The largest finite double, (2^53 - 1) * 2^971. */
  const MAX_FLOAT64: real :=
    9007199254740991.0 * 2048.0 * TWO_64 * TWO_64 * TWO_64 * TWO_256 * TWO_256 * TWO_256

  function TwoTo(n: nat): (r: real) {
    if n == 0 then 1.0 else 2.0 * TwoTo(n - 1)
  }

  lemma {:induction false} TwoToSum(m: nat, n: nat)
    ensures TwoTo(m + n) == TwoTo(m) * TwoTo(n)
  {
    if m > 0 { TwoToSum(m - 1, n); }
  }

  lemma {:induction false} TwoToDouble(n: nat, r: real)
    requires TwoTo(n) == r
    ensures TwoTo(2 * n) == r * r
  {
    TwoToSum(n, n);
    assert n + n == 2 * n;
  }

  /** The largest finite double of IEEE 754: 53 bits of ones, with the exponent 971. */
  lemma LargestDouble()
    ensures MAX_FLOAT64 == 9007199254740991.0 * TwoTo(971)
  {
    assert TwoTo(8) == 256.0;
    TwoToDouble(8, 256.0);
    TwoToDouble(16, 65536.0);
    TwoToDouble(32, 4294967296.0);
    TwoToDouble(64, TWO_64);
    TwoToDouble(128, TWO_64 * TWO_64);
    TwoToSum(256, 256);
    TwoToSum(512, 256);
    TwoToSum(768, 64);
    TwoToSum(832, 128);
    assert TwoTo(11) == 2048.0;
    TwoToSum(960, 11);
  }

  function Waypoints(q: Query, source: string, destination: string): (r: seq<string>)
    ensures |r| >= 2 && r[0] == source && Last(r) == destination
  {
    [source] + (if q.c.Some? then q.c.value.includeNodeIds else []) + [destination]
  }

  // ---------------------------------------------------------------- tours

  /** p is a chain of usable links that visits the waypoints in order. */
  ghost predicate Visits(q: Query, p: seq<Link>, ways: seq<string>)
    requires ways != []
    decreases |ways|
  {
    if |ways| == 1 then p == []
    else exists k | 0 <= k <= |p| ::
           && Visits(q, p[..k], Front(ways))
           && IsChain(q, p[k..], Last(Front(ways)), Last(ways))
  }

  /** p is put together from the canonical chains between successive waypoints. */
  ghost predicate IsTour(q: Query, p: seq<Link>, ways: seq<string>)
    requires ways != []
    decreases |ways|
  {
    if |ways| == 1 then p == []
    else exists k | 0 <= k <= |p| ::
           && IsTour(q, p[..k], Front(ways))
           && IsCanonical(q, p[k..], Last(Front(ways)), Last(ways))
  }

  /** Two nodes of the graph joined by a chain whose cost fits in 64 bits. */
  ghost predicate Linked(q: Query, u: string, v: string) {
    u in q.g.nodes && v in q.g.nodes && exists p :: WithinRange(q, p, u, v)
  }

  lemma TourSplit(q: Query, p: seq<Link>, ways: seq<string>) returns (k: nat)
    requires |ways| > 1 && IsTour(q, p, ways)
    ensures k <= |p| && IsTour(q, p[..k], Front(ways)) && IsCanonical(q, p[k..], Last(Front(ways)), Last(ways))
    ensures p == p[..k] + p[k..] && Cost(q, p) == Cost(q, p[..k]) + Cost(q, p[k..])
  {
    k :| 0 <= k <= |p| && IsTour(q, p[..k], Front(ways)) && IsCanonical(q, p[k..], Last(Front(ways)), Last(ways));
    assert p == p[..k] + p[k..];
    CostConcat(q, p[..k], p[k..]);
  }

  lemma VisitsSplit(q: Query, p: seq<Link>, ways: seq<string>) returns (k: nat)
    requires |ways| > 1 && Visits(q, p, ways)
    ensures k <= |p| && Visits(q, p[..k], Front(ways)) && IsChain(q, p[k..], Last(Front(ways)), Last(ways))
    ensures p == p[..k] + p[k..] && Cost(q, p) == Cost(q, p[..k]) + Cost(q, p[k..])
  {
    k :| 0 <= k <= |p| && Visits(q, p[..k], Front(ways)) && IsChain(q, p[k..], Last(Front(ways)), Last(ways));
    assert p == p[..k] + p[k..];
    CostConcat(q, p[..k], p[k..]);
  }

  ghost predicate AllLinked(q: Query, ways: seq<string>) {
    forall i | 0 <= i < |ways| - 1 :: Linked(q, ways[i], ways[i + 1])
  }

  lemma LinkedMore(q: Query, p: seq<Link>, ways: seq<string>, i: nat)
    requires i + 1 < |ways| && AllLinked(q, ways[..i + 1])
    requires WithinRange(q, p, ways[i], ways[i + 1]) && ways[i] in q.g.nodes && ways[i + 1] in q.g.nodes
    ensures AllLinked(q, ways[..i + 2])
  {
    forall j | 0 <= j < i + 1 ensures Linked(q, ways[j], ways[j + 1]) {
      if j < i { assert Linked(q, ways[..i + 1][j], ways[..i + 1][j + 1]); }
    }
  }

  lemma {:induction false} TourVisits(q: Query, p: seq<Link>, ways: seq<string>)
    requires ways != [] && IsTour(q, p, ways)
    ensures Visits(q, p, ways)
    decreases |ways|
  {
    if |ways| > 1 {
      var k := TourSplit(q, p, ways);
      TourVisits(q, p[..k], Front(ways));
    }
  }

  lemma {:induction false} VisitsIsChain(q: Query, p: seq<Link>, ways: seq<string>)
    requires ways != [] && Visits(q, p, ways)
    ensures IsChain(q, p, ways[0], Last(ways))
    decreases |ways|
  {
    if |ways| > 1 {
      var k := VisitsSplit(q, p, ways);
      VisitsIsChain(q, p[..k], Front(ways));
      ChainConcat(q, p[..k], p[k..], ways[0], Last(Front(ways)), Last(ways));
    }
  }

  lemma LastLegCheapest(q: Query, p: seq<Link>, p': seq<Link>, u: string, v: string)
    requires IsCanonical(q, p, u, v) && IsChain(q, p', u, v)
    ensures Cost(q, p) <= Cost(q, p')
  {
  }

  /** A tour is a cheapest way to visit the waypoints in order. */
  lemma {:induction false} TourIsCheapest(q: Query, p: seq<Link>, p': seq<Link>, ways: seq<string>)
    requires ways != [] && IsTour(q, p, ways) && Visits(q, p', ways)
    ensures Cost(q, p) <= Cost(q, p')
    decreases |ways|
  {
    if |ways| > 1 {
      var k := TourSplit(q, p, ways);
      var k' := VisitsSplit(q, p', ways);
      TourIsCheapest(q, p[..k], p'[..k'], Front(ways));
      LastLegCheapest(q, p[k..], p'[k'..], Last(Front(ways)), Last(ways));
    }
  }

  /** With distinct link ids the tour is determined by the query and the waypoints. */
  lemma {:induction false} TourUnique(q: Query, p: seq<Link>, p': seq<Link>, ways: seq<string>)
    requires ways != [] && DistinctLinkIds(q.g)
    requires IsTour(q, p, ways) && IsTour(q, p', ways)
    ensures p == p'
    decreases |ways|
  {
    if |ways| > 1 {
      var k := TourSplit(q, p, ways);
      var k' := TourSplit(q, p', ways);
      TourUnique(q, p[..k], p'[..k'], Front(ways));
      CanonicalUnique(q, p[k..], p'[k'..], Last(Front(ways)), Last(ways));
    }
  }

  lemma TourExtend(q: Query, p: seq<Link>, leg: seq<Link>, ways: seq<string>, i: nat)
    requires i + 1 < |ways| && IsTour(q, p, ways[..i + 1]) && IsCanonical(q, leg, ways[i], ways[i + 1])
    ensures IsTour(q, p + leg, ways[..i + 2])
    ensures Cost(q, p + leg) == Cost(q, p) + Cost(q, leg)
  {
    assert Front(ways[..i + 2]) == ways[..i + 1];
    assert (p + leg)[..|p|] == p && (p + leg)[|p|..] == leg;
    CostConcat(q, p, leg);
  }

  // ---------------------------------------------------------------- assembling a route

  /** Where a chain from u arrives. */
  function EndOf(u: string, links: seq<Link>): string {
    if links == [] then u else Last(links).remoteNodeId
  }

  /** Go's map lookup: nil for a missing node. */
  function NodeAt(g: Graph, id: string): Option<Node> {
    if id in g.nodes then Some(g.nodes[id]) else None
  }

  function Hops(g: Graph, u: string, links: seq<Link>): (hops: seq<Hop>)
    ensures |hops| == |links|
  {
    if links == [] then []
    else Hops(g, u, Front(links)) + [Hop(|links| - 1, NodeAt(g, EndOf(u, Front(links))), Some(Last(links)))]
  }

  /** The hops that report a chain from u: one a node, the last without a link. */
  function HopList(g: Graph, u: string, links: seq<Link>): (hops: seq<Hop>)
    ensures |hops| == |links| + 1
  {
    Hops(g, u, links) + [Hop(|links|, NodeAt(g, EndOf(u, links)), None)]
  }

  function Lowest(links: seq<Link>): (b: real) {
    if links == [] then MAX_FLOAT64
    else if Last(links).reservable < Lowest(Front(links)) then Last(links).reservable
    else Lowest(Front(links))
  }

  function Bottleneck(links: seq<Link>): real {
    if links == [] || Lowest(links) == MAX_FLOAT64 then 0.0 else Lowest(links)
  }

  function TotalDelay(links: seq<Link>): uint64 {
    if links == [] then 0 else AddU64(TotalDelay(Front(links)), Last(links).delay)
  }

  /** Lists the hops of a chain (graph.go:207-223). */
  method Assemble(g: Graph, source: string, links: seq<Link>, total: uint64) returns (r: Route)
    ensures r == Route(total, TotalDelay(links), Bottleneck(links), HopList(g, source, links))
  {
    var hops: seq<Hop> := [];
    var delay: uint64 := 0;
    var bottleneck := MAX_FLOAT64;
    var current := source;
    for i := 0 to |links|
      invariant hops == Hops(g, source, links[..i]) && current == EndOf(source, links[..i])
      invariant delay == TotalDelay(links[..i]) && bottleneck == Lowest(links[..i])
    {
      var l := links[i];
      assert Front(links[..i + 1]) == links[..i] && Last(links[..i + 1]) == l;
      hops := hops + [Hop(i, NodeAt(g, current), Some(l))];
      delay := AddU64(delay, l.delay);
      if l.reservable < bottleneck { bottleneck := l.reservable; }
      current := l.remoteNodeId;
    }
    assert links[..|links|] == links;
    hops := hops + [Hop(|links|, NodeAt(g, current), None)];
    if |links| == 0 || bottleneck == MAX_FLOAT64 { bottleneck := 0.0; }
    r := Route(total, delay, bottleneck, hops);
  }

  /** The links a list of hops takes. */
  function Taken(hops: seq<Hop>): (links: seq<Link>) {
    if hops == [] then []
    else if Last(hops).outgoing.None? then Taken(Front(hops))
    else Taken(Front(hops)) + [Last(hops).outgoing.value]
  }

  lemma {:induction false} TakenHops(g: Graph, u: string, links: seq<Link>)
    ensures Taken(Hops(g, u, links)) == links
    decreases |links|
  {
    if links != [] {
      TakenHops(g, u, Front(links));
      assert Front(Hops(g, u, links)) == Hops(g, u, Front(links));
      assert links == Front(links) + [Last(links)];
    }
  }

  /** The links can be read back from the hops. */
  lemma TakenHopList(g: Graph, u: string, links: seq<Link>)
    ensures Taken(HopList(g, u, links)) == links
  {
    TakenHops(g, u, links);
    assert Front(HopList(g, u, links)) == Hops(g, u, links);
  }

  lemma {:induction false} HopsAt(g: Graph, u: string, links: seq<Link>, i: nat)
    requires i < |links|
    ensures Hops(g, u, links)[i] == Hop(i, NodeAt(g, NodesOf(u, links)[i]), Some(links[i]))
    decreases |links|
  {
    if i < |links| - 1 {
      HopsAt(g, u, Front(links), i);
    }
  }

  /** The hops chain from the source to the end: hop i stands at the i-th node of the chain, which
      is in the graph, and leaves by its i-th link. */
  lemma HopListAt(q: Query, u: string, v: string, links: seq<Link>, i: nat)
    requires WellFormed(q.g) && u in q.g.nodes && IsChain(q, links, u, v) && i <= |links|
    ensures NodesOf(u, links)[i] in q.g.nodes
    ensures HopList(q.g, u, links)[i] == Hop(i, Some(q.g.nodes[NodesOf(u, links)[i]]),
                                             if i < |links| then Some(links[i]) else None)
    ensures NodesOf(u, links)[0] == u && NodesOf(u, links)[|links|] == v
  {
    PrefixIsChain(q, links, u, v, i);
    if i > 0 {
      PrefixIsChain(q, links, u, v, i - 1);
      assert HasLink(q.g, links[i - 1]);
    }
    if i < |links| { HopsAt(q.g, u, links, i); }
  }

  function DelaySum(links: seq<Link>): (d: nat) {
    if links == [] then 0 else DelaySum(Front(links)) + Last(links).delay
  }

  /** The reported delay is the sum of the link delays, kept to 64 bits. */
  lemma {:induction false} TotalDelayWraps(links: seq<Link>)
    ensures WrapsTo(DelaySum(links), TotalDelay(links))
    ensures TotalDelay(links) == DelaySum(links) <==> DelaySum(links) <= MAX_U64
    decreases |links|
  {
    if links == [] {
      WrapsToZero();
    } else {
      TotalDelayWraps(Front(links));
      WrapsToAdd(DelaySum(Front(links)), TotalDelay(Front(links)), Last(links).delay);
    }
    WrapsToExact(DelaySum(links), TotalDelay(links));
  }

  lemma {:induction false} LowestIsLeast(links: seq<Link>)
    ensures Lowest(links) <= MAX_FLOAT64 && forall l | l in links :: Lowest(links) <= l.reservable
    ensures Lowest(links) == MAX_FLOAT64 || exists l :: l in links && l.reservable == Lowest(links)
    decreases |links|
  {
    if links != [] {
      LowestIsLeast(Front(links));
      assert links == Front(links) + [Last(links)];
    }
  }

  /** The bottleneck is the least reservable bandwidth on the path whenever some link is below the
      largest double, and otherwise zero. */
  lemma BottleneckIsLeast(links: seq<Link>)
    ensures if exists l :: l in links && l.reservable < MAX_FLOAT64
            then (exists l :: l in links && l.reservable == Bottleneck(links))
                 && forall l | l in links :: Bottleneck(links) <= l.reservable
            else Bottleneck(links) == 0.0
  {
    LowestIsLeast(links);
  }

  // ---------------------------------------------------------------- Compute

  function LinksOf(r: Route): (links: seq<Link>) {
    Taken(r.hops)
  }

  /** r reports a chain from u, with its delay and bottleneck. */
  ghost predicate Reports(g: Graph, u: string, r: Route) {
    && r.hops == HopList(g, u, LinksOf(r))
    && r.delay == TotalDelay(LinksOf(r)) && r.bottleneck == Bottleneck(LinksOf(r))
  }

  ghost predicate IsRoute(q: Query, source: string, destination: string, r: Route) {
    && source in q.g.nodes
    && Reports(q.g, source, r)
    && IsTour(q, LinksOf(r), Waypoints(q, source, destination))
    && WrapsTo(Cost(q, LinksOf(r)), r.total)
  }

  lemma RouteIsChain(q: Query, source: string, destination: string, r: Route)
    requires IsRoute(q, source, destination, r)
    ensures IsChain(q, LinksOf(r), source, destination)
  {
    TourVisits(q, LinksOf(r), Waypoints(q, source, destination));
    VisitsIsChain(q, LinksOf(r), Waypoints(q, source, destination));
  }

  /** What has been joined up to waypoint i. */
  ghost predicate Joined(q: Query, links: seq<Link>, total: uint64, ways: seq<string>, i: nat)
    requires i < |ways|
  {
    IsTour(q, links, ways[..i + 1]) && WrapsTo(Cost(q, links), total) && AllLinked(q, ways[..i + 1])
  }

  lemma JoinMore(q: Query, links: seq<Link>, total: uint64, ways: seq<string>, i: nat, leg: seq<Link>, cost: uint64)
    requires i + 1 < |ways| && Joined(q, links, total, ways, i)
    requires IsCanonical(q, leg, ways[i], ways[i + 1]) && cost == Cost(q, leg)
    requires ways[i] in q.g.nodes && ways[i + 1] in q.g.nodes
    ensures Joined(q, links + leg, AddU64(total, cost), ways, i + 1)
  {
    assert WithinRange(q, leg, ways[i], ways[i + 1]);
    LinkedMore(q, leg, ways, i);
    TourExtend(q, links, leg, ways, i);
    WrapsToAdd(Cost(q, links), total, cost);
  }

  /** Joins the legs between successive waypoints; none when some leg cannot be travelled
      (graph.go:197-206). */
  method JoinLegs(q: Query, ways: seq<string>) returns (r: Option<(seq<Link>, uint64)>)
    requires WellFormed(q.g) && ways != []
    ensures r.Some? ==> IsTour(q, r.value.0, ways) && WrapsTo(Cost(q, r.value.0), r.value.1)
    ensures r.Some? <==> AllLinked(q, ways)
  {
    var links: seq<Link> := [];
    var total: uint64 := 0;
    WrapsToZero();
    for i := 0 to |ways| - 1
      invariant Joined(q, links, total, ways, i)
    {
      var leg := ShortestPath(q, ways[i], ways[i + 1]);
      if leg.NoPath? {
        assert !Linked(q, ways[i], ways[i + 1]);
        return None;
      }
      JoinMore(q, links, total, ways, i, leg.links, leg.total);
      links := links + leg.links;
      total := AddU64(total, leg.total);
    }
    assert ways[..|ways|] == ways;
    r := Some((links, total));
  }

  /** What Compute answers: a route exactly when every leg can be travelled. */
  ghost predicate Answers(q: Query, source: string, destination: string, r: Option<Route>) {
    && (r.Some? <==> AllLinked(q, Waypoints(q, source, destination)))
    && (r.Some? ==> IsRoute(q, source, destination, r.value))
  }

  /** The route through the waypoints, or none when some leg cannot be travelled. The total is the
      sum of the hop metrics modulo 2^64, because the legs are added unchecked. */
  method Compute(q: Query, source: string, destination: string) returns (r: Option<Route>)
    requires WellFormed(q.g)
    ensures Answers(q, source, destination, r)
  {
    var ways := Waypoints(q, source, destination);
    var joined := JoinLegs(q, ways);
    if joined.None? { return None; }
    var (links, total) := joined.value;
    assert Linked(q, ways[0], ways[1]);
    TakenHopList(q.g, source, links);
    var route := Assemble(q.g, source, links, total);
    r := Some(route);
  }

  /** The route is optimal among all chains through the waypoints, and its reported total is that
      optimum exactly when some chain through them fits in 64 bits. */
  lemma TotalIsOptimal(q: Query, source: string, destination: string, r: Route)
    requires IsRoute(q, source, destination, r)
    ensures var ways := Waypoints(q, source, destination);
            && Visits(q, LinksOf(r), ways)
            && (forall p | Visits(q, p, ways) :: Cost(q, LinksOf(r)) <= Cost(q, p))
            && (r.total == Cost(q, LinksOf(r)) <==> exists p :: Visits(q, p, ways) && Cost(q, p) <= MAX_U64)
  {
    var ways := Waypoints(q, source, destination);
    TourVisits(q, LinksOf(r), ways);
    forall p | Visits(q, p, ways) ensures Cost(q, LinksOf(r)) <= Cost(q, p) {
      TourIsCheapest(q, LinksOf(r), p, ways);
    }
    WrapsToExact(Cost(q, LinksOf(r)), r.total);
  }

  /** With distinct link ids there is one route between two nodes. */
  lemma RoutesAgree(q: Query, source: string, destination: string, r: Route, r': Route)
    requires DistinctLinkIds(q.g) && IsRoute(q, source, destination, r) && IsRoute(q, source, destination, r')
    ensures r == r'
  {
    TourUnique(q, LinksOf(r), LinksOf(r'), Waypoints(q, source, destination));
    WrapsToOne(Cost(q, LinksOf(r)), r.total, r'.total);
  }
}
