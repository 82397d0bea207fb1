/** Equal-cost alternatives, found by excluding each link of the selected route in turn
    (internal/topology/graph.go:226-268). */
module Alternatives {
  import opened Entities
  import opened Orders
  import opened Graphs
  import opened Shortest
  import opened Routes

  // ---------------------------------------------------------------- route keys

  /** strings.Join(parts, "/"). */
  function Join(parts: seq<string>): (r: string) {
    if parts == [] then "" else if |parts| == 1 then parts[0] else parts[0] + "/" + Join(parts[1..])
  }

  /** Joining one more part adds a slash and the part. */
  lemma {:induction false} JoinMore(parts: seq<string>, x: string)
    ensures Join(parts + [x]) == if parts == [] then x else Join(parts) + "/" + x
  {
    if |parts| > 1 {
      assert (parts + [x])[1..] == parts[1..] + [x];
      JoinMore(parts[1..], x);
      assert parts[0] + "/" + (Join(parts[1..]) + "/" + x) == parts[0] + "/" + Join(parts[1..]) + "/" + x;
    } else if |parts| == 1 {
      assert (parts + [x])[1..] == [x];
    }
  }

  /** The node ids of a route's hops; the getters read a nil node as the empty id. */
  function NodeIds(hops: seq<Hop>): (ids: seq<string>) {
    if hops == [] then []
    else NodeIds(Front(hops)) + [if Last(hops).node.Some? then Last(hops).node.value.meta.id else ""]
  }

  function PathKey(r: Route): string {
    Join(NodeIds(r.hops))
  }

  /** Joining is reversible on non-empty lists of parts without a slash. */
  lemma {:induction false} JoinInjective(a: seq<string>, b: seq<string>)
    requires a != [] && b != []
    requires (forall s | s in a :: SlashFree(s)) && (forall s | s in b :: SlashFree(s))
    requires Join(a) == Join(b)
    ensures a == b
    decreases |a|
  {
    if |a| == 1 && |b| == 1 {
    } else if |a| == 1 {
      HasSlash(b[0], Join(b[1..]));
    } else if |b| == 1 {
      HasSlash(a[0], Join(a[1..]));
    } else {
      FirstSlash(a[0], Join(a[1..]), b[0], Join(b[1..]));
      JoinInjective(a[1..], b[1..]);
    }
  }

  // ---------------------------------------------------------------- excluding a link

  const NO_CONSTRAINTS := Constraints(0, 0.0, [], [], [], [], [])

  /** The query with one more link to avoid; a missing constraint record starts empty. */
  function Excluding(q: Query, id: string): Query {
    var c := if q.c.Some? then q.c.value else NO_CONSTRAINTS;
    q.(c := Some(c.(avoidLinkIds := c.avoidLinkIds + [id])))
  }

  /** Excluding a link id removes exactly the links with that id. */
  lemma ExcludingUsable(q: Query, id: string, l: Link)
    ensures Excluding(q, id).Usable(l) <==> q.Usable(l) && l.Id() != id
  {
  }

  lemma {:induction false} ExcludingChain(q: Query, id: string, p: seq<Link>, u: string, v: string)
    ensures IsChain(Excluding(q, id), p, u, v) <==> IsChain(q, p, u, v) && forall l | l in p :: l.Id() != id
    ensures Cost(Excluding(q, id), p) == Cost(q, p)
    decreases |p|
  {
    if p != [] {
      assert p == Front(p) + [Last(p)];
      ExcludingUsable(q, id, Last(p));
      ExcludingChain(q, id, Front(p), u, Last(p).localNodeId);
    }
  }

  lemma {:induction false} ExcludingVisits(q: Query, id: string, p: seq<Link>, ways: seq<string>)
    requires ways != [] && Visits(Excluding(q, id), p, ways)
    ensures Visits(q, p, ways) && forall l | l in p :: l.Id() != id
    decreases |ways|
  {
    if |ways| > 1 {
      var k := VisitsSplit(Excluding(q, id), p, ways);
      ExcludingVisits(q, id, p[..k], Front(ways));
      ExcludingChain(q, id, p[k..], Last(Front(ways)), Last(ways));
    }
  }

  // ---------------------------------------------------------------- a second shortest chain

  ghost predicate NoParallelLinks(g: Graph) {
    forall a, b | HasLink(g, a) && HasLink(g, b)
                  && a.localNodeId == b.localNodeId && a.remoteNodeId == b.remoteNodeId :: a == b
  }

  /** A chain whose every link lies on a simple chain from the same start is a prefix of it. */
  lemma {:induction false} FollowsSimple(q: Query, p: seq<Link>, s: seq<Link>, u: string, v: string, w: string)
    requires IsChain(q, p, u, v) && IsShortest(q, s, u, w)
    requires forall l | l in p :: l in s
    ensures |p| <= |s| && p == s[..|p|]
    decreases |p|
  {
    if p != [] {
      var l := Last(p);
      assert p == Front(p) + [l];
      FollowsSimple(q, Front(p), s, u, l.localNodeId, w);
      var n := |p| - 1;
      assert l in s;
      var k :| 0 <= k < |s| && s[k] == l;
      PrefixIsChain(q, s, u, w, k);
      PrefixIsChain(q, s, u, w, n);
      ChainEnd(q, Front(p), u, l.localNodeId, NodesOf(u, s)[n]);
      if n < k { ShortestIsSimple(q, s, u, w, n, k); }
      if k < n { ShortestIsSimple(q, s, u, w, k, n); }
    }
  }

  lemma ChainEnd(q: Query, p: seq<Link>, u: string, v: string, v': string)
    requires IsChain(q, p, u, v) && IsChain(q, p, u, v')
    ensures v == v'
  {
  }

  /** Two different shortest chains: the first has a link that the second does without. */
  lemma SomeLinkUnused(q: Query, p: seq<Link>, s: seq<Link>, u: string, v: string) returns (e: Link)
    requires IsShortest(q, p, u, v) && IsShortest(q, s, u, v) && p != s
    ensures e in p && e !in s
  {
    if forall l | l in p :: l in s {
      FollowsSimple(q, p, s, u, v, v);
      PrefixIsChain(q, s, u, v, |p|);
      ChainEnd(q, p, u, v, NodesOf(u, s)[|p|]);
      PrefixIsChain(q, s, u, v, |s|);
      assert s[..|s|] == s;
      ChainEnd(q, s, u, v, NodesOf(u, s)[|s|]);
      if |p| < |s| {
        ShortestIsSimple(q, s, u, v, |p|, |s|);
      }
      assert false;
    }
    e :| e in p && e !in s;
  }

  /** Without parallel links a chain is determined by the nodes it visits. */
  lemma {:induction false} NodesDetermineChain(q: Query, p: seq<Link>, s: seq<Link>, u: string, v: string, w: string)
    requires NoParallelLinks(q.g) && IsChain(q, p, u, v) && IsChain(q, s, u, w)
    requires NodesOf(u, p) == NodesOf(u, s)
    ensures p == s
    decreases |p|
  {
    if p != [] {
      var n := |p| - 1;
      PrefixIsChain(q, p, u, v, n);
      PrefixIsChain(q, s, u, w, n);
      assert p[n].remoteNodeId == NodesOf(u, p)[n + 1] == NodesOf(u, s)[n + 1] == s[n].remoteNodeId;
      assert NodesOf(u, p)[..n + 1] == NodesOf(u, Front(p)) && NodesOf(u, s)[..n + 1] == NodesOf(u, Front(s));
      NodesDetermineChain(q, Front(p), Front(s), u, Last(p).localNodeId, Last(s).localNodeId);
      assert p == Front(p) + [p[n]] && s == Front(s) + [s[n]];
    }
  }

  // ---------------------------------------------------------------- ComputeMany

  /** A route through the same waypoints, under the original constraints, with the selected total. */
  ghost predicate IsAlternative(q: Query, source: string, destination: string, first: Route, r: Route) {
    && Reports(q.g, source, r)
    && Visits(q, LinksOf(r), Waypoints(q, source, destination))
    && WrapsTo(Cost(q, LinksOf(r)), r.total) && r.total == first.total
    && (|Waypoints(q, source, destination)| == 2 ==> Cost(q, LinksOf(r)) == r.total)
  }

  /** An alternative whose exact sum fits in 64 bits is as cheap as the selected route. */
  lemma AlternativeIsOptimal(q: Query, source: string, destination: string, first: Route, r: Route)
    requires IsRoute(q, source, destination, first) && IsAlternative(q, source, destination, first, r)
    requires Cost(q, LinksOf(r)) <= MAX_U64
    ensures Cost(q, LinksOf(r)) == Cost(q, LinksOf(first)) == r.total
    ensures forall p | Visits(q, p, Waypoints(q, source, destination)) :: Cost(q, LinksOf(r)) <= Cost(q, p)
  {
    TourIsCheapest(q, LinksOf(first), LinksOf(r), Waypoints(q, source, destination));
    WrapsToExact(Cost(q, LinksOf(r)), r.total);
    WrapsToExact(Cost(q, LinksOf(first)), first.total);
    TotalIsOptimal(q, source, destination, first);
  }

  lemma RouteIsAlternative(q: Query, source: string, destination: string, first: Route)
    requires Answers(q, source, destination, Some(first))
    ensures IsAlternative(q, source, destination, first, first)
  {
    if |Waypoints(q, source, destination)| == 2 { OneLeg(q, source, destination, first); }
    TourVisits(q, LinksOf(first), Waypoints(q, source, destination));
  }

  lemma ExcludingWaypoints(q: Query, id: string, source: string, destination: string)
    ensures Waypoints(Excluding(q, id), source, destination) == Waypoints(q, source, destination)
  {
  }

  lemma CandidateIsAlternative(q: Query, id: string, source: string, destination: string, first: Route, r: Route)
    requires Answers(Excluding(q, id), source, destination, Some(r)) && r.total == first.total
    ensures IsAlternative(q, source, destination, first, r)
  {
    var q' := Excluding(q, id);
    ExcludingWaypoints(q, id, source, destination);
    TourVisits(q', LinksOf(r), Waypoints(q', source, destination));
    ExcludingVisits(q, id, LinksOf(r), Waypoints(q, source, destination));
    RouteIsChain(q', source, destination, r);
    ExcludingChain(q, id, LinksOf(r), source, destination);
    if |Waypoints(q, source, destination)| == 2 { OneLeg(q', source, destination, r); }
  }

  /** The graphs and queries for which the search for a second route is complete. */
  ghost predicate Plain(q: Query) {
    && (q.c.Some? ==> q.c.value.includeNodeIds == [])
    && NoParallelLinks(q.g) && DistinctLinkIds(q.g)
    && forall id | id in q.g.nodes :: SlashFree(id)
  }

  /** Without waypoints the route is one leg, and its total is exact. */
  lemma OneLeg(q: Query, source: string, destination: string, r: Route)
    requires q.c.Some? ==> q.c.value.includeNodeIds == []
    requires IsRoute(q, source, destination, r) && AllLinked(q, Waypoints(q, source, destination))
    ensures IsShortest(q, LinksOf(r), source, destination)
    ensures Cost(q, LinksOf(r)) == r.total
  {
    var ways := Waypoints(q, source, destination);
    assert ways == [source, destination] && Front(ways) == [source];
    var k := TourSplit(q, LinksOf(r), ways);
    assert LinksOf(r)[k..] == LinksOf(r);
    assert Linked(q, ways[0], ways[1]);
    WrapsToExact(Cost(q, LinksOf(r)), r.total);
  }

  lemma {:induction false} HopNodes(q: Query, u: string, v: string, links: seq<Link>)
    requires WellFormed(q.g) && u in q.g.nodes && IsChain(q, links, u, v)
    ensures v in q.g.nodes && EndOf(u, links) == v
    ensures NodeIds(HopList(q.g, u, links)) == NodesOf(u, links)
    ensures forall id | id in NodesOf(u, links) :: id in q.g.nodes
    decreases |links|
  {
    assert Front(HopList(q.g, u, links)) == Hops(q.g, u, links);
    if links != [] {
      HopNodes(q, u, Last(links).localNodeId, Front(links));
      assert Front(Hops(q.g, u, links)) == Hops(q.g, u, Front(links));
      assert Front(HopList(q.g, u, Front(links))) == Hops(q.g, u, Front(links));
      assert HasLink(q.g, Last(links));
    }
  }

  /** Routes with the same key take the same links. */
  lemma KeyDeterminesLinks(q: Query, source: string, destination: string, a: Route, b: Route)
    requires WellFormed(q.g) && Plain(q) && source in q.g.nodes
    requires Reports(q.g, source, a) && IsChain(q, LinksOf(a), source, destination)
    requires Reports(q.g, source, b) && IsChain(q, LinksOf(b), source, destination)
    requires PathKey(a) == PathKey(b)
    ensures LinksOf(a) == LinksOf(b)
  {
    HopNodes(q, source, destination, LinksOf(a));
    HopNodes(q, source, destination, LinksOf(b));
    JoinInjective(NodeIds(a.hops), NodeIds(b.hops));
    NodesDetermineChain(q, LinksOf(a), LinksOf(b), source, destination, destination);
  }

  /** A chain that does without link e stays travelable when e is excluded. */
  lemma StillTravelable(q: Query, source: string, destination: string, e: Link, p: seq<Link>)
    requires Plain(q) && AllLinked(q, Waypoints(q, source, destination))
    requires HasLink(q.g, e) && WithinRange(q, p, source, destination) && e !in p
    ensures IsChain(Excluding(q, e.Id()), p, source, destination)
    ensures AllLinked(Excluding(q, e.Id()), Waypoints(Excluding(q, e.Id()), source, destination))
  {
    var q', ways := Excluding(q, e.Id()), Waypoints(q, source, destination);
    ExcludingWaypoints(q, e.Id(), source, destination);
    assert ways == [source, destination];
    assert Linked(q, ways[0], ways[1]);
    ChainLinks(q, p, source, destination);
    ExcludingChain(q, e.Id(), p, source, destination);
    assert WithinRange(q', p, source, destination);
  }

  /** Then the candidate has the same total and other links. */
  lemma CandidateFound(q: Query, source: string, destination: string, first: Route, e: Link, r: Option<Route>,
                       p: seq<Link>)
    requires WellFormed(q.g) && Plain(q)
    requires Answers(q, source, destination, Some(first)) && Answers(Excluding(q, e.Id()), source, destination, r)
    requires e in LinksOf(first) && HasLink(q.g, e)
    requires IsShortest(q, p, source, destination) && e !in p
    ensures r.Some? && r.value.total == first.total && PathKey(r.value) != PathKey(first)
  {
    OneLeg(q, source, destination, first);
    assert WithinRange(q, p, source, destination);
    StillTravelable(q, source, destination, e, p);
    OneLeg(Excluding(q, e.Id()), source, destination, r.value);
    SameTotal(q, source, destination, first, e, r.value, p);
    ExcludingChain(q, e.Id(), LinksOf(r.value), source, destination);
    if PathKey(r.value) == PathKey(first) {
      KeyDeterminesLinks(q, source, destination, r.value, first);
      assert false;
    }
  }

  lemma SameTotal(q: Query, source: string, destination: string, first: Route, e: Link, r: Route, p: seq<Link>)
    requires IsShortest(q, LinksOf(first), source, destination) && Cost(q, LinksOf(first)) == first.total
    requires IsShortest(Excluding(q, e.Id()), LinksOf(r), source, destination)
    requires Cost(Excluding(q, e.Id()), LinksOf(r)) == r.total
    requires IsShortest(q, p, source, destination) && IsChain(Excluding(q, e.Id()), p, source, destination)
    ensures r.total == first.total
  {
    ExcludingChain(q, e.Id(), LinksOf(r), source, destination);
    ExcludingChain(q, e.Id(), p, source, destination);
  }

  lemma {:induction false} ChainLinks(q: Query, p: seq<Link>, u: string, v: string)
    requires IsChain(q, p, u, v)
    ensures forall l | l in p :: q.Usable(l)
    decreases |p|
  {
    if p != [] {
      ChainLinks(q, Front(p), u, Last(p).localNodeId);
      assert p == Front(p) + [Last(p)];
    }
  }

  /** Every shortest chain takes each of the first h links. */
  ghost predicate Examined(q: Query, source: string, destination: string, links: seq<Link>, h: nat) {
    forall p, i | IsShortest(q, p, source, destination) && 0 <= i < h && i < |links| :: links[i] in p
  }

  lemma OnlyOneShortest(q: Query, source: string, destination: string, links: seq<Link>)
    requires IsShortest(q, links, source, destination)
    requires Examined(q, source, destination, links, |links|)
    ensures forall p | IsShortest(q, p, source, destination) :: p == links
  {
    forall p | IsShortest(q, p, source, destination) ensures p == links {
      if p != links {
        var e := SomeLinkUnused(q, links, p, source, destination);
      }
    }
  }

  function ClampLimit(limit: int): (r: nat)
    ensures r == limit || (r == 1 && limit < 1) || (r == 16 && limit > 16)
  {
    if limit <= 0 then 1 else if limit > 16 then 16 else limit
  }

  /** What ComputeMany keeps: distinct alternatives of the first route, with their keys. */
  ghost predicate Collected(q: Query, source: string, destination: string, first: Route, out: seq<Route>,
                            seen: set<string>)
  {
    && out != [] && out[0] == first
    && (forall r | r in out :: IsAlternative(q, source, destination, first, r))
    && DistinctKeys(out) && seen == Keys(out)
  }

  ghost predicate DistinctKeys(out: seq<Route>) {
    forall i, j | 0 <= i < j < |out| :: PathKey(out[i]) != PathKey(out[j])
  }

  lemma KeysMore(out: seq<Route>, r: Route)
    requires DistinctKeys(out) && PathKey(r) !in Keys(out)
    ensures DistinctKeys(out + [r]) && Keys(out + [r]) == Keys(out) + {PathKey(r)}
  {
    forall i | 0 <= i < |out| ensures PathKey(out[i]) in Keys(out) {
      assert out[i] in out;
    }
  }

  function Keys(out: seq<Route>): (keys: set<string>) {
    set r | r in out :: PathKey(r)
  }

  lemma CollectMore(q: Query, source: string, destination: string, first: Route, out: seq<Route>, seen: set<string>,
                    r: Route)
    requires Collected(q, source, destination, first, out, seen)
    requires IsAlternative(q, source, destination, first, r) && PathKey(r) !in seen
    ensures Collected(q, source, destination, first, out + [r], seen + {PathKey(r)})
  {
    KeysMore(out, r);
  }

  /** Nothing was collected for link h, so no shortest chain does without it. */
  lemma NothingFound(q: Query, source: string, destination: string, first: Route, h: nat, r: Option<Route>)
    requires WellFormed(q.g) && Plain(q)
    requires Answers(q, source, destination, Some(first)) && h < |LinksOf(first)|
    requires Answers(Excluding(q, LinksOf(first)[h].Id()), source, destination, r)
    requires r.None? || r.value.total != first.total || PathKey(r.value) == PathKey(first)
    requires Examined(q, source, destination, LinksOf(first), h)
    ensures Examined(q, source, destination, LinksOf(first), h + 1)
  {
    var links := LinksOf(first);
    RouteIsChain(q, source, destination, first);
    ChainLinks(q, links, source, destination);
    assert links[h] in links;
    forall p, i | IsShortest(q, p, source, destination) && 0 <= i < h + 1 && i < |links| ensures links[i] in p {
      if i == h && links[h] !in p {
        CandidateFound(q, source, destination, first, links[h], r, p);
        assert false;
      }
    }
  }

  /** Keeps a candidate with the selected total and a new key (graph.go:251-258). */
  function Keep(first: Route, out: seq<Route>, seen: set<string>, candidate: Option<Route>): (seq<Route>, set<string>) {
    if candidate.None? || candidate.value.total != first.total then (out, seen)
    else if PathKey(candidate.value) in seen then (out, seen)
    else (out + [candidate.value], seen + {PathKey(candidate.value)})
  }

  lemma KeepCollects(q: Query, id: string, source: string, destination: string, first: Route,
                     out: seq<Route>, seen: set<string>, candidate: Option<Route>)
    requires Answers(Excluding(q, id), source, destination, candidate)
    requires Collected(q, source, destination, first, out, seen)
    ensures var (out', seen') := Keep(first, out, seen, candidate);
            Collected(q, source, destination, first, out', seen') && |out| <= |out'| <= |out| + 1
  {
    if Keep(first, out, seen, candidate).0 != out {
      CandidateIsAlternative(q, id, source, destination, first, candidate.value);
      CollectMore(q, source, destination, first, out, seen, candidate.value);
    }
  }

  /** Examined, as far as the search for a second route depends on it. */
  ghost predicate Searched(q: Query, source: string, destination: string, first: Route, out: seq<Route>, h: nat)
  {
    |out| == 1 && Plain(q) ==> Examined(q, source, destination, LinksOf(first), h)
  }

  lemma CollectedOne(q: Query, source: string, destination: string, first: Route, out: seq<Route>, seen: set<string>)
    requires Collected(q, source, destination, first, out, seen) && |out| == 1
    ensures out == [first] && seen == {PathKey(first)}
  {
  }

  lemma KeptNothing(first: Route, candidate: Option<Route>)
    requires |Keep(first, [first], {PathKey(first)}, candidate).0| == 1
    ensures candidate.None? || candidate.value.total != first.total || PathKey(candidate.value) == PathKey(first)
  {
  }

  lemma KeepSearches(q: Query, source: string, destination: string, first: Route, h: nat,
                     out: seq<Route>, seen: set<string>, candidate: Option<Route>)
    requires WellFormed(q.g) && Answers(q, source, destination, Some(first)) && h < |LinksOf(first)|
    requires Answers(Excluding(q, LinksOf(first)[h].Id()), source, destination, candidate)
    requires Collected(q, source, destination, first, out, seen)
    requires Searched(q, source, destination, first, out, h)
    ensures Searched(q, source, destination, first, Keep(first, out, seen, candidate).0, h + 1)
  {
    if |Keep(first, out, seen, candidate).0| == 1 && Plain(q) {
      CollectedOne(q, source, destination, first, out, seen);
      KeptNothing(first, candidate);
      NothingFound(q, source, destination, first, h, candidate);
    }
  }

  lemma AnotherFound(q: Query, source: string, destination: string, first: Route, r: Route)
    requires WellFormed(q.g) && Plain(q)
    requires Answers(q, source, destination, Some(first)) && IsAlternative(q, source, destination, first, r)
    requires PathKey(r) != PathKey(first)
    ensures IsShortest(q, LinksOf(r), source, destination) && LinksOf(r) != LinksOf(first)
  {
    OneLeg(q, source, destination, first);
    assert |Waypoints(q, source, destination)| == 2;
    AlternativeIsOptimal(q, source, destination, first, r);
    VisitsIsChain(q, LinksOf(r), Waypoints(q, source, destination));
  }

  /** One route is all there is. */
  ghost predicate OnlyRoute(q: Query, source: string, destination: string, r: Route) {
    forall p | IsShortest(q, p, source, destination) :: p == LinksOf(r)
  }

  lemma SecondFound(q: Query, source: string, destination: string, first: Route, out: seq<Route>, seen: set<string>)
    requires WellFormed(q.g) && Plain(q) && Collected(q, source, destination, first, out, seen)
    requires Answers(q, source, destination, Some(first))
    requires |out| == 1 ==> Examined(q, source, destination, LinksOf(first), |LinksOf(first)|)
    ensures |out| == 1 <==> OnlyRoute(q, source, destination, first)
  {
    OneLeg(q, source, destination, first);
    if |out| == 1 {
      OnlyOneShortest(q, source, destination, LinksOf(first));
    } else {
      assert out[1] in out && PathKey(out[0]) != PathKey(out[1]);
      AnotherFound(q, source, destination, first, out[1]);
    }
  }

  /** What ComputeMany promises. */
  ghost predicate Alternates(q: Query, source: string, destination: string, limit: int, out: seq<Route>) {
    && 1 <= |out| <= ClampLimit(limit)
    && Answers(q, source, destination, Some(out[0]))
    && (forall r | r in out :: IsAlternative(q, source, destination, out[0], r))
    && (forall i, j | 0 <= i < j < |out| :: NodeIds(out[i].hops) != NodeIds(out[j].hops))
  }

  lemma CollectedAlternates(q: Query, source: string, destination: string, limit: int, out: seq<Route>,
                            seen: set<string>)
    requires out != [] && Answers(q, source, destination, Some(out[0])) && |out| <= ClampLimit(limit)
    requires Collected(q, source, destination, out[0], out, seen)
    ensures Alternates(q, source, destination, limit, out)
  {
  }

  // ---------------------------------------------------------------- which alternatives are found

  /** The routes gathered from the answers to the exclusions so far: while there is room, an answer joins
      when it has the selected total and a key not seen. */
  function Gather(first: Route, answers: seq<Option<Route>>, most: nat): (out: seq<Route>)
    ensures out != [] && out[0] == first
  {
    if answers == [] then [first]
    else
      var before, r := Gather(first, Front(answers), most), Last(answers);
      if |before| < most && r.Some? && r.value.total == first.total && PathKey(r.value) !in Keys(before)
      then before + [r.value] else before
  }

  lemma GatherMore(first: Route, answers: seq<Option<Route>>, most: nat, r: Option<Route>)
    requires |Gather(first, answers, most)| < most
    ensures var out := Gather(first, answers, most);
            Gather(first, answers + [r], most) == Keep(first, out, Keys(out), r).0
  {
    assert Front(answers + [r]) == answers;
  }

  /** Once there is no room nothing joins. */
  lemma {:induction false} GatherFull(first: Route, answers: seq<Option<Route>>, most: nat, n: nat)
    requires n <= |answers| && |Gather(first, answers[..n], most)| >= most
    ensures Gather(first, answers, most) == Gather(first, answers[..n], most)
    decreases |answers|
  {
    if n < |answers| {
      assert Front(answers)[..n] == answers[..n];
      GatherFull(first, Front(answers), most, n);
    } else {
      assert answers[..n] == answers;
    }
  }

  lemma KeysOfMore(out: seq<Route>, r: Route)
    ensures Keys(out + [r]) == Keys(out) + {PathKey(r)}
  {
    assert forall x :: x in out + [r] <==> x in out || x == r;
  }

  /** While there is room no answer of the selected total is passed over, unless one with its key is there. */
  lemma {:induction false} GatherCovers(first: Route, answers: seq<Option<Route>>, most: nat, h: nat)
    requires h < |answers| && |Gather(first, answers, most)| < most
    requires answers[h].Some? && answers[h].value.total == first.total
    ensures PathKey(answers[h].value) in Keys(Gather(first, answers, most))
    decreases |answers|
  {
    var before, r := Gather(first, Front(answers), most), Last(answers);
    if r.Some? { KeysOfMore(before, r.value); }
    if h < |answers| - 1 { GatherCovers(first, Front(answers), most, h); }
  }

  /** Every gathered route but the first is one of the answers. */
  lemma {:induction false} GatherFrom(first: Route, answers: seq<Option<Route>>, most: nat, i: nat) returns (h: nat)
    requires 0 < i < |Gather(first, answers, most)|
    ensures h < |answers| && answers[h] == Some(Gather(first, answers, most)[i])
    decreases |answers|
  {
    if i < |Gather(first, Front(answers), most)| {
      h := GatherFrom(first, Front(answers), most, i);
    } else {
      h := |answers| - 1;
    }
  }

  /** The answers without each of the first links in turn. */
  ghost predicate Tried(q: Query, source: string, destination: string, links: seq<Link>, answers: seq<Option<Route>>) {
    && |answers| <= |links|
    && forall h | 0 <= h < |answers| :: Answers(Excluding(q, links[h].Id()), source, destination, answers[h])
  }

  lemma TriedMore(q: Query, source: string, destination: string, links: seq<Link>, answers: seq<Option<Route>>,
                  r: Option<Route>)
    requires Tried(q, source, destination, links, answers) && |answers| < |links|
    requires Answers(Excluding(q, links[|answers|].Id()), source, destination, r)
    ensures Tried(q, source, destination, links, answers + [r])
  {
  }

  /** The list comes from the answers without each link of the first route in turn, up to the limit. */
  ghost predicate Gathers(q: Query, source: string, destination: string, most: nat, out: seq<Route>,
                          answers: seq<Option<Route>>)
  {
    && out != [] && Tried(q, source, destination, LinksOf(out[0]), answers)
    && out == Gather(out[0], answers, most)
    && (|answers| == |LinksOf(out[0])| || |out| >= most)
  }

  ghost predicate Exhaustive(q: Query, source: string, destination: string, limit: int, out: seq<Route>) {
    exists answers :: Gathers(q, source, destination, ClampLimit(limit), out, answers)
  }

  /** Every later route is the answer without some link of the first. */
  lemma LaterIsAnswer(q: Query, source: string, destination: string, limit: int, out: seq<Route>, i: nat)
    returns (e: Link)
    requires Exhaustive(q, source, destination, limit, out) && 0 < i < |out|
    ensures e in LinksOf(out[0]) && Answers(Excluding(q, e.Id()), source, destination, Some(out[i]))
  {
    var answers :| Gathers(q, source, destination, ClampLimit(limit), out, answers);
    var h := GatherFrom(out[0], answers, ClampLimit(limit), i);
    e := LinksOf(out[0])[h];
  }

  lemma AnswersUnique(q: Query, source: string, destination: string, a: Option<Route>, b: Option<Route>)
    requires DistinctLinkIds(q.g) && Answers(q, source, destination, a) && Answers(q, source, destination, b)
    ensures a == b
  {
    if a.Some? { RoutesAgree(q, source, destination, a.value, b.value); }
  }

  /** A list short of the limit passes nothing over: for each link of the first route there is an answer
      without it that, if it has the selected total, visits the nodes of a listed route. */
  lemma NonePassedOver(q: Query, source: string, destination: string, limit: int, out: seq<Route>, e: Link)
    returns (r: Option<Route>)
    requires Exhaustive(q, source, destination, limit, out) && |out| < ClampLimit(limit) && e in LinksOf(out[0])
    ensures Answers(Excluding(q, e.Id()), source, destination, r)
    ensures r.Some? && r.value.total == out[0].total ==>
              exists i :: 0 <= i < |out| && PathKey(out[i]) == PathKey(r.value)
  {
    var answers :| Gathers(q, source, destination, ClampLimit(limit), out, answers);
    var h :| 0 <= h < |LinksOf(out[0])| && LinksOf(out[0])[h] == e;
    r := answers[h];
    if r.Some? && r.value.total == out[0].total {
      GatherCovers(out[0], answers, ClampLimit(limit), h);
      var x :| x in out && PathKey(x) == PathKey(r.value);
    }
  }

  /** With distinct link ids that is so of every such answer. */
  lemma NoneMissing(q: Query, source: string, destination: string, limit: int, out: seq<Route>, e: Link, r: Route)
    requires DistinctLinkIds(q.g) && Exhaustive(q, source, destination, limit, out)
    requires |out| < ClampLimit(limit) && e in LinksOf(out[0])
    requires Answers(Excluding(q, e.Id()), source, destination, Some(r)) && r.total == out[0].total
    ensures exists i :: 0 <= i < |out| && PathKey(out[i]) == PathKey(r)
  {
    var r' := NonePassedOver(q, source, destination, limit, out, e);
    AnswersUnique(Excluding(q, e.Id()), source, destination, r', Some(r));
  }

  lemma {:induction false} TriedUnique(q: Query, source: string, destination: string, links: seq<Link>,
                                       a: seq<Option<Route>>, b: seq<Option<Route>>)
    requires DistinctLinkIds(q.g) && |a| <= |b|
    requires Tried(q, source, destination, links, a) && Tried(q, source, destination, links, b)
    ensures a == b[..|a|]
  {
    forall h | 0 <= h < |a| ensures a[h] == b[h] {
      AnswersUnique(Excluding(q, links[h].Id()), source, destination, a[h], b[h]);
    }
  }

  lemma GathersUnique(q: Query, source: string, destination: string, most: nat, out: seq<Route>, out': seq<Route>,
                      a: seq<Option<Route>>, b: seq<Option<Route>>)
    requires DistinctLinkIds(q.g) && |a| <= |b|
    requires Gathers(q, source, destination, most, out, a) && Gathers(q, source, destination, most, out', b)
    requires out[0] == out'[0]
    ensures out == out'
  {
    TriedUnique(q, source, destination, LinksOf(out[0]), a, b);
    if |a| < |b| { GatherFull(out[0], b, most, |a|); } else { assert b[..|a|] == b; }
  }

  /** With distinct link ids there is one answer, order included. */
  lemma AlternativesUnique(q: Query, source: string, destination: string, limit: int, a: seq<Route>, b: seq<Route>)
    requires DistinctLinkIds(q.g)
    requires Alternates(q, source, destination, limit, a) && Exhaustive(q, source, destination, limit, a)
    requires Alternates(q, source, destination, limit, b) && Exhaustive(q, source, destination, limit, b)
    ensures a == b
  {
    AnswersUnique(q, source, destination, Some(a[0]), Some(b[0]));
    var x :| Gathers(q, source, destination, ClampLimit(limit), a, x);
    var y :| Gathers(q, source, destination, ClampLimit(limit), b, y);
    if |x| <= |y| {
      GathersUnique(q, source, destination, ClampLimit(limit), a, b, x, y);
    } else {
      GathersUnique(q, source, destination, ClampLimit(limit), b, a, y, x);
    }
  }

  lemma HopLink(g: Graph, source: string, r: Route, h: nat)
    requires Reports(g, source, r) && h < |r.hops|
    ensures |r.hops| == |LinksOf(r)| + 1
    ensures r.hops[h].outgoing.Some? <==> h < |LinksOf(r)|
    ensures h < |LinksOf(r)| ==> r.hops[h].outgoing == Some(LinksOf(r)[h])
  {
    ListedHop(g, source, LinksOf(r), r.hops, h);
  }

  lemma ListedHop(g: Graph, source: string, links: seq<Link>, hops: seq<Hop>, h: nat)
    requires hops == HopList(g, source, links) && h < |hops|
    ensures hops[h].outgoing == if h < |links| then Some(links[h]) else None
  {
    if h < |links| { HopsAt(g, source, links, h); }
  }

  /** At most `limit` routes (between 1 and 16), all through the waypoints under the original
      constraints with the selected total, no two visiting the same nodes. On plain queries a
      second route is found exactly when there is another shortest chain. */
  method ComputeMany(q: Query, source: string, destination: string, limit: int) returns (res: Option<seq<Route>>)
    requires WellFormed(q.g)
    ensures res.Some? <==> AllLinked(q, Waypoints(q, source, destination))
    ensures res.Some? ==> Alternates(q, source, destination, limit, res.value)
    ensures res.Some? ==> Exhaustive(q, source, destination, limit, res.value)
    ensures res.Some? && ClampLimit(limit) >= 2 && Plain(q) ==>
              (|res.value| == 1 <==> OnlyRoute(q, source, destination, res.value[0]))
  {
    var selected := Compute(q, source, destination);
    if selected.None? { return None; }
    var first := selected.value;
    RouteIsAlternative(q, source, destination, first);
    var out, seen := [first], {PathKey(first)};
    ghost var answers: seq<Option<Route>> := [];
    TakenHopList(q.g, source, LinksOf(first));
    var h := 0;
    while h < |first.hops|
      invariant 0 <= h == |answers| <= |LinksOf(first)| && |out| <= ClampLimit(limit)
      invariant Collected(q, source, destination, first, out, seen)
      invariant Searched(q, source, destination, first, out, h)
      invariant Tried(q, source, destination, LinksOf(first), answers)
      invariant out == Gather(first, answers, ClampLimit(limit))
    {
      var hop := first.hops[h];
      HopLink(q.g, source, first, h);
      if |out| >= ClampLimit(limit) || hop.outgoing.None? { break; }
      var candidate := Compute(Excluding(q, hop.outgoing.value.Id()), source, destination);
      KeepCollects(q, hop.outgoing.value.Id(), source, destination, first, out, seen, candidate);
      KeepSearches(q, source, destination, first, h, out, seen, candidate);
      GatherMore(first, answers, ClampLimit(limit), candidate);
      TriedMore(q, source, destination, LinksOf(first), answers, candidate);
      var (out', seen') := Keep(first, out, seen, candidate);
      out, seen, h, answers := out', seen', h + 1, answers + [candidate];
    }
    HopCount(q.g, source, first);
    assert Gathers(q, source, destination, ClampLimit(limit), out, answers);
    CollectedAlternates(q, source, destination, limit, out, seen);
    if ClampLimit(limit) >= 2 && Plain(q) {
      SecondFound(q, source, destination, first, out, seen);
    }
    res := Some(out);
  }

  lemma HopCount(g: Graph, source: string, r: Route)
    requires Reports(g, source, r)
    ensures |r.hops| == |LinksOf(r)| + 1
  {
  }
}
