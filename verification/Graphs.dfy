/** The directed graph a path query runs on, and the chains of links through it
    (internal/topology/graph.go). */
module Graphs {
  import opened Entities
  import opened Orders
  import opened Sorting

  datatype Graph = Graph(revision: uint64, nodes: map<string, Node>, links: map<string, Link>,
                         adj: map<string, seq<Link>>)

  datatype PathMetric = Igp | Te | Delay

  datatype Constraints = Constraints(multiTopologyId: nat, minReservable: real,
                                     avoidLinkIds: seq<string>, avoidNodeIds: seq<string>,
                                     requireGroups: seq<nat>, excludeGroups: seq<nat>,
                                     includeNodeIds: seq<string>)

  /** The weight of a link, absent when the link does not carry the metric. */
  function Metric(l: Link, metric: PathMetric): (r: Option<uint64>)
    ensures r.Some? ==> r.value >= 1
    ensures r.None? <==> (metric.Te? && l.teMetric == 0) || (metric.Delay? && l.delay == 0)
  {
    match metric
    case Te => if l.teMetric == 0 then None else Some(l.teMetric)
    case Delay => if l.delay == 0 then None else Some(l.delay)
    case Igp => if l.igpMetric == 0 then Some(1) else Some(l.igpMetric)
  }

  ghost predicate Meets(l: Link, c: Constraints) {
    && (c.multiTopologyId == 0 || l.multiTopologyId == c.multiTopologyId)
    && (c.minReservable <= 0.0 || l.reservable >= c.minReservable)
    && l.Id() !in c.avoidLinkIds
    && l.localNodeId !in c.avoidNodeIds && l.remoteNodeId !in c.avoidNodeIds
    && (forall v | v in c.requireGroups :: v in l.adminGroups)
    && (forall v | v in c.excludeGroups :: v !in l.adminGroups)
  }

  ghost predicate IsEligible(l: Link, c: Option<Constraints>) {
    c.Some? ==> Meets(l, c.value)
  }

  method Eligible(l: Link, c: Option<Constraints>) returns (ok: bool)
    ensures ok == IsEligible(l, c)
  {
    if c.None? { return true; }
    var c := c.value;
    if c.multiTopologyId != 0 && l.multiTopologyId != c.multiTopologyId { return false; }
    if c.minReservable > 0.0 && l.reservable < c.minReservable { return false; }
    for i := 0 to |c.avoidLinkIds|
      invariant l.Id() !in c.avoidLinkIds[..i]
    {
      if c.avoidLinkIds[i] == l.Id() { return false; }
    }
    for i := 0 to |c.avoidNodeIds|
      invariant l.localNodeId !in c.avoidNodeIds[..i] && l.remoteNodeId !in c.avoidNodeIds[..i]
    {
      if c.avoidNodeIds[i] == l.localNodeId || c.avoidNodeIds[i] == l.remoteNodeId { return false; }
    }
    var groups: set<nat> := {};
    for i := 0 to |l.adminGroups|
      invariant forall v :: v in groups <==> v in l.adminGroups[..i]
    {
      groups := groups + {l.adminGroups[i]};
    }
    assert l.adminGroups[..|l.adminGroups|] == l.adminGroups;
    for i := 0 to |c.requireGroups|
      invariant forall v | v in c.requireGroups[..i] :: v in l.adminGroups
    {
      if c.requireGroups[i] !in groups { return false; }
    }
    for i := 0 to |c.excludeGroups|
      invariant forall v | v in c.excludeGroups[..i] :: v !in l.adminGroups
    {
      if c.excludeGroups[i] in groups { return false; }
    }
    return true;
  }

  // ---------------------------------------------------------------- building the graph

  predicate ActiveNode(n: Node) { n.meta.freshness == Active }

  /** The links that survive NewGraph: active, between active nodes. */
  predicate Survives(l: Link, nodes: map<string, Node>) {
    l.meta.freshness == Active && l.localNodeId in nodes && l.remoteNodeId in nodes
  }

  predicate LinkLess(a: Link, b: Link) { StrLess(a.Id(), b.Id()) }

  ghost predicate HasLink(g: Graph, l: Link) {
    l.localNodeId in g.adj && l in g.adj[l.localNodeId]
  }

  /** The links leaving node u; a node without an entry has none. */
  function LinksFrom(g: Graph, u: string): seq<Link> {
    if u in g.adj then g.adj[u] else []
  }

  ghost predicate WellFormed(g: Graph) {
    && (forall id | id in g.nodes :: g.nodes[id].meta.id == id)
    && (forall u | u in g.adj :: forall l | l in g.adj[u] ::
          l.localNodeId == u && u in g.nodes && l.remoteNodeId in g.nodes)
    && (forall id | id in g.links :: g.links[id].Id() == id && HasLink(g, g.links[id]))
  }

  ghost predicate DistinctIds(links: set<Link>) {
    forall a, b | a in links && b in links && a.Id() == b.Id() :: a == b
  }

  ghost predicate DistinctLinkIds(g: Graph) {
    forall a, b | HasLink(g, a) && HasLink(g, b) && a.Id() == b.Id() :: a == b
  }

  function LastWith(nodes: seq<Node>, id: string): (r: Option<Node>)
    ensures r.None? <==> forall n | n in nodes :: !(ActiveNode(n) && n.meta.id == id)
    ensures r.Some? ==> r.value in nodes && ActiveNode(r.value) && r.value.meta.id == id
  {
    if nodes == [] then None
    else if ActiveNode(nodes[|nodes| - 1]) && nodes[|nodes| - 1].meta.id == id then Some(nodes[|nodes| - 1])
    else LastWith(nodes[..|nodes| - 1], id)
  }

  function Outgoing(links: seq<Link>, nodes: map<string, Node>, u: string): (r: seq<Link>) {
    if links == [] then []
    else
      var l := links[|links| - 1];
      Outgoing(links[..|links| - 1], nodes, u) +
      if Survives(l, nodes) && l.localNodeId == u then [l] else []
  }

  lemma {:induction false} OutgoingMembers(links: seq<Link>, nodes: map<string, Node>, u: string)
    ensures forall l :: l in Outgoing(links, nodes, u) <==> l in links && Survives(l, nodes) && l.localNodeId == u
  {
    if links != [] {
      OutgoingMembers(links[..|links| - 1], nodes, u);
      assert links == links[..|links| - 1] + [links[|links| - 1]];
    }
  }

  lemma LinksOrdered(values: set<Link>)
    ensures WeakOrder(LinkLess, values)
    ensures DistinctIds(values) ==> Separates(LinkLess, values)
  {
    forall a, b | a in values && b in values
      ensures LinkLess(a, b) ==> !LinkLess(b, a)
      ensures a.Id() != b.Id() ==> LinkLess(a, b) || LinkLess(b, a)
    {
      StrLessTotal(a.Id(), b.Id());
      if LinkLess(a, b) { StrLessAsym(a.Id(), b.Id()); }
    }
    forall a, b, c | a in values && b in values && c in values && !LinkLess(b, a) && !LinkLess(c, b)
      ensures !LinkLess(c, a)
    {
      StrAtMostTrans(a.Id(), b.Id(), c.Id());
    }
  }

  method KeepActive(nodes: seq<Node>) returns (kept: map<string, Node>)
    ensures forall id :: id in kept <==> LastWith(nodes, id).Some?
    ensures forall id | id in kept :: kept[id] == LastWith(nodes, id).value
  {
    kept := map[];
    for i := 0 to |nodes|
      invariant forall id :: id in kept <==> LastWith(nodes[..i], id).Some?
      invariant forall id | id in kept :: kept[id] == LastWith(nodes[..i], id).value
    {
      assert nodes[..i + 1][..i] == nodes[..i];
      if ActiveNode(nodes[i]) {
        kept := kept[nodes[i].meta.id := nodes[i]];
      }
    }
    assert nodes[..|nodes|] == nodes;
  }

  ghost function SurvivingIds(links: seq<Link>, nodes: map<string, Node>): set<string> {
    set l | l in links && Survives(l, nodes) :: l.Id()
  }

  ghost predicate Indexes(byId: map<string, Link>, links: seq<Link>, nodes: map<string, Node>) {
    && byId.Keys == SurvivingIds(links, nodes)
    && forall id | id in byId :: byId[id].Id() == id && byId[id] in links && Survives(byId[id], nodes)
  }

  ghost predicate Groups(adj: map<string, seq<Link>>, links: seq<Link>, nodes: map<string, Node>) {
    forall u :: if u in adj then adj[u] == Outgoing(links, nodes, u) != [] else Outgoing(links, nodes, u) == []
  }

  lemma IndexMore(byId: map<string, Link>, links: seq<Link>, nodes: map<string, Node>, l: Link)
    requires Indexes(byId, links, nodes)
    ensures Indexes(if Survives(l, nodes) then byId[l.Id() := l] else byId, links + [l], nodes)
  {
    assert SurvivingIds(links + [l], nodes) ==
           SurvivingIds(links, nodes) + if Survives(l, nodes) then {l.Id()} else {};
  }

  lemma GroupMore(adj: map<string, seq<Link>>, links: seq<Link>, nodes: map<string, Node>, l: Link)
    requires Groups(adj, links, nodes)
    ensures Groups(if Survives(l, nodes)
                   then adj[l.localNodeId := (if l.localNodeId in adj then adj[l.localNodeId] else []) + [l]]
                   else adj, links + [l], nodes)
  {
    assert (links + [l])[..|links|] == links;
  }

  method Adjacency(links: seq<Link>, nodes: map<string, Node>)
    returns (byId: map<string, Link>, adj: map<string, seq<Link>>)
    ensures Indexes(byId, links, nodes) && Groups(adj, links, nodes)
  {
    byId, adj := map[], map[];
    for i := 0 to |links|
      invariant Indexes(byId, links[..i], nodes) && Groups(adj, links[..i], nodes)
    {
      var l := links[i];
      IndexMore(byId, links[..i], nodes, l);
      GroupMore(adj, links[..i], nodes, l);
      assert links[..i + 1] == links[..i] + [l];
      if Survives(l, nodes) {
        byId := byId[l.Id() := l];
        adj := adj[l.localNodeId := (if l.localNodeId in adj then adj[l.localNodeId] else []) + [l]];
      }
    }
    assert links[..|links|] == links;
  }

  method SortAdjacency(adj: map<string, seq<Link>>) returns (sorted: map<string, seq<Link>>)
    ensures SortsGroups(sorted, adj)
  {
    sorted := adj;
    var left := adj.Keys;
    while left != {}
      invariant left <= adj.Keys == sorted.Keys
      invariant forall u | u in adj :: sorted[u] == if u in left then adj[u] else Sort(LinkLess, adj[u])
      decreases left
    {
      var u :| u in left;
      sorted := sorted[u := Sort(LinkLess, adj[u])];
      left := left - {u};
    }
  }

  /** What NewGraph promises: the active nodes, and exactly the active links between them,
      grouped by local node in id order. */
  ghost predicate Built(g: Graph, nodes: seq<Node>, links: seq<Link>) {
    && WellFormed(g)
    && (forall id :: id in g.nodes <==> LastWith(nodes, id).Some?)
    && (forall id | id in g.nodes :: g.nodes[id] == LastWith(nodes, id).value)
    && (forall l :: HasLink(g, l) <==> l in links && Survives(l, g.nodes))
    && (forall l | HasLink(g, l) :: l.Id() in g.links)
    && (forall u | u in g.adj :: g.adj[u] != [] && Sorted(LinkLess, g.adj[u])
                                 && multiset(g.adj[u]) == multiset(Outgoing(links, g.nodes, u)))
  }

  /** Sorting a list of outgoing links keeps the links and orders them. */
  lemma SortedOutgoing(out: seq<Link>)
    ensures Sorted(LinkLess, Sort(LinkLess, out)) && multiset(Sort(LinkLess, out)) == multiset(out)
    ensures forall l :: l in Sort(LinkLess, out) <==> l in out
  {
    LinksOrdered(Elements(out));
    SortSorts(LinkLess, out);
    SortPermutes(LinkLess, out);
    assert forall l :: l in Sort(LinkLess, out) <==> l in Elements(Sort(LinkLess, out));
  }

  /** The sorted groups hold exactly the surviving links, each under its local node. */
  lemma GroupedLinks(adj: map<string, seq<Link>>, links: seq<Link>, nodes: map<string, Node>, u: string, l: Link)
    requires Groups(adj, links, nodes)
    ensures u in adj && l in Sort(LinkLess, adj[u]) <==> l in links && Survives(l, nodes) && l.localNodeId == u
  {
    OutgoingMembers(links, nodes, u);
    if u in adj { SortedOutgoing(adj[u]); }
  }

  /** Sorting every group of links. */
  ghost predicate SortsGroups(sorted: map<string, seq<Link>>, adj: map<string, seq<Link>>) {
    sorted.Keys == adj.Keys && forall u | u in adj :: sorted[u] == Sort(LinkLess, adj[u])
  }

  lemma GraphLinks(g: Graph, adj: map<string, seq<Link>>, links: seq<Link>, l: Link)
    requires Groups(adj, links, g.nodes) && SortsGroups(g.adj, adj)
    ensures HasLink(g, l) <==> l in links && Survives(l, g.nodes)
    ensures forall u | u in g.adj && l in g.adj[u] :: l.localNodeId == u && HasLink(g, l)
  {
    GroupedLinks(adj, links, g.nodes, l.localNodeId, l);
    forall u | u in g.adj && l in g.adj[u] ensures l.localNodeId == u {
      GroupedLinks(adj, links, g.nodes, u, l);
    }
  }

  lemma GraphSorted(g: Graph, adj: map<string, seq<Link>>, links: seq<Link>, u: string)
    requires Groups(adj, links, g.nodes) && SortsGroups(g.adj, adj) && u in g.adj
    ensures g.adj[u] != [] && Sorted(LinkLess, g.adj[u])
    ensures multiset(g.adj[u]) == multiset(Outgoing(links, g.nodes, u))
  {
    SortedOutgoing(adj[u]);
    assert multiset(g.adj[u])[adj[u][0]] > 0;
  }

  lemma GraphWellFormed(g: Graph, links: seq<Link>)
    requires forall id | id in g.nodes :: g.nodes[id].meta.id == id
    requires Indexes(g.links, links, g.nodes)
    requires forall l :: HasLink(g, l) <==> l in links && Survives(l, g.nodes)
    requires forall u, l | u in g.adj && l in g.adj[u] :: l.localNodeId == u && HasLink(g, l)
    ensures WellFormed(g) && forall l | HasLink(g, l) :: l.Id() in g.links
  {
  }

  method NewGraph(revision: uint64, nodes: seq<Node>, links: seq<Link>) returns (g: Graph)
    ensures g.revision == revision && Built(g, nodes, links)
    ensures DistinctIds(Elements(links)) ==> DistinctLinkIds(g)
  {
    var kept := KeepActive(nodes);
    var byId, adj := Adjacency(links, kept);
    var sorted := SortAdjacency(adj);
    g := Graph(revision, kept, byId, sorted);
    forall l ensures HasLink(g, l) <==> l in links && Survives(l, g.nodes)
             ensures forall u | u in g.adj && l in g.adj[u] :: l.localNodeId == u && HasLink(g, l)
    {
      GraphLinks(g, adj, links, l);
    }
    GraphWellFormed(g, links);
    forall u | u in g.adj
      ensures g.adj[u] != [] && Sorted(LinkLess, g.adj[u])
      ensures multiset(g.adj[u]) == multiset(Outgoing(links, g.nodes, u))
    {
      GraphSorted(g, adj, links, u);
    }
    LinksDistinct(g, links);
  }

  lemma LinksDistinct(g: Graph, links: seq<Link>)
    requires forall l :: HasLink(g, l) <==> l in links && Survives(l, g.nodes)
    ensures DistinctIds(Elements(links)) ==> DistinctLinkIds(g)
  {
    if DistinctIds(Elements(links)) {
      forall a, b | HasLink(g, a) && HasLink(g, b) && a.Id() == b.Id() ensures a == b {
        assert a in Elements(links) && b in Elements(links);
      }
    }
  }

  // ---------------------------------------------------------------- one graph for one input

  lemma SameLinks(g: Graph, g': Graph, id: string)
    requires WellFormed(g) && WellFormed(g') && DistinctLinkIds(g)
    requires forall l :: HasLink(g, l) <==> HasLink(g', l)
    requires forall l | HasLink(g, l) :: l.Id() in g.links && l.Id() in g'.links
    ensures id in g.links <==> id in g'.links
    ensures id in g.links && id in g'.links ==> g.links[id] == g'.links[id]
  {
    if id in g.links { assert HasLink(g, g.links[id]); }
    if id in g'.links { assert HasLink(g', g'.links[id]); }
  }

  lemma SameNeighbours(g: Graph, g': Graph, u: string)
    requires WellFormed(g) && WellFormed(g') && DistinctLinkIds(g) && u in g.adj && g.adj[u] != []
    requires forall l :: HasLink(g, l) <==> HasLink(g', l)
    requires Sorted(LinkLess, g.adj[u])
    requires u in g'.adj ==> Sorted(LinkLess, g'.adj[u]) && multiset(g.adj[u]) == multiset(g'.adj[u])
    ensures u in g'.adj && g.adj[u] == g'.adj[u]
  {
    assert HasLink(g, g.adj[u][0]);
    var values := Elements(g.adj[u]);
    forall a, b | a in values && b in values && a.Id() == b.Id() ensures a == b {
      assert HasLink(g, a) && HasLink(g, b);
    }
    LinksOrdered(values);
    SortedUnique(LinkLess, g.adj[u], g'.adj[u]);
  }

  lemma SameMap<V>(a: map<string, V>, b: map<string, V>)
    requires forall k | k in a :: k in b && a[k] == b[k]
    requires forall k | k in b :: k in a
    ensures a == b
  {
    assert a.Keys == b.Keys;
  }

  lemma BuiltNodes(g: Graph, g': Graph, nodes: seq<Node>, links: seq<Link>)
    requires Built(g, nodes, links) && Built(g', nodes, links)
    ensures g.nodes == g'.nodes
    ensures forall l :: HasLink(g, l) <==> HasLink(g', l)
  {
    SameMap(g.nodes, g'.nodes);
  }

  lemma BuiltLinks(g: Graph, g': Graph)
    requires WellFormed(g) && WellFormed(g') && DistinctLinkIds(g)
    requires forall l :: HasLink(g, l) <==> HasLink(g', l)
    requires forall l | HasLink(g, l) :: l.Id() in g.links && l.Id() in g'.links
    ensures g.links == g'.links
  {
    forall id ensures id in g.links <==> id in g'.links
              ensures id in g.links && id in g'.links ==> g.links[id] == g'.links[id]
    {
      SameLinks(g, g', id);
    }
    SameMap(g.links, g'.links);
  }

  /** Every group is there, in id order. */
  ghost predicate GroupSorted(g: Graph, nodes: map<string, Node>, links: seq<Link>, u: string) {
    u in g.adj ==>
      && g.adj[u] != [] && Sorted(LinkLess, g.adj[u])
      && multiset(g.adj[u]) == multiset(Outgoing(links, nodes, u))
  }

  lemma BuiltGroups(g: Graph, g': Graph, nodes: map<string, Node>, links: seq<Link>)
    requires WellFormed(g) && WellFormed(g') && DistinctLinkIds(g) && DistinctLinkIds(g')
    requires forall l :: HasLink(g, l) <==> HasLink(g', l)
    requires forall u :: GroupSorted(g, nodes, links, u) && GroupSorted(g', nodes, links, u)
    ensures g.adj == g'.adj
  {
    forall u | u in g.adj ensures u in g'.adj && g.adj[u] == g'.adj[u] {
      assert GroupSorted(g, nodes, links, u) && GroupSorted(g', nodes, links, u);
      SameNeighbours(g, g', u);
    }
    forall u | u in g'.adj ensures u in g.adj {
      assert GroupSorted(g, nodes, links, u) && GroupSorted(g', nodes, links, u);
      SameNeighbours(g', g, u);
    }
    SameMap(g.adj, g'.adj);
  }

  lemma BuiltSorted(g: Graph, nodes: seq<Node>, links: seq<Link>)
    requires Built(g, nodes, links)
    ensures forall u :: GroupSorted(g, g.nodes, links, u)
  {
  }

  /** With distinct link ids one input makes one graph. */
  lemma BuiltUnique(g: Graph, g': Graph, nodes: seq<Node>, links: seq<Link>)
    requires Built(g, nodes, links) && Built(g', nodes, links) && g.revision == g'.revision
    requires DistinctLinkIds(g) && DistinctLinkIds(g')
    ensures g == g'
  {
    BuiltNodes(g, g', nodes, links);
    BuiltLinks(g, g');
    BuiltSorted(g, nodes, links);
    BuiltSorted(g', nodes, links);
    BuiltGroups(g, g', g.nodes, links);
  }

  // ---------------------------------------------------------------- chains

  /** One constrained query: the graph, the metric and the constraints. */
  datatype Query = Query(g: Graph, metric: PathMetric, c: Option<Constraints>) {

    /** A link the search may take. */
    ghost predicate Usable(l: Link) {
      HasLink(g, l) && IsEligible(l, c) && Metric(l, metric).Some?
    }

    function Weight(l: Link): (w: nat) {
      if Metric(l, metric).Some? then Metric(l, metric).value else 0
    }
  }

  function Last<T>(p: seq<T>): T
    requires p != []
  {
    p[|p| - 1]
  }

  function Front<T>(p: seq<T>): seq<T>
    requires p != []
  {
    p[..|p| - 1]
  }

  ghost predicate IsChain(q: Query, p: seq<Link>, u: string, v: string)
    decreases |p|
  {
    if p == [] then u == v
    else q.Usable(Last(p)) && Last(p).remoteNodeId == v && IsChain(q, Front(p), u, Last(p).localNodeId)
  }

  function Cost(q: Query, p: seq<Link>): (w: nat)
    decreases |p|
  {
    if p == [] then 0 else Cost(q, Front(p)) + q.Weight(Last(p))
  }

  ghost predicate IsShortest(q: Query, p: seq<Link>, u: string, v: string) {
    && IsChain(q, p, u, v)
    && forall p' | IsChain(q, p', u, v) :: Cost(q, p) <= Cost(q, p')
  }

  /** The canonical chain: a shortest one, whose last link has the least id among the last links of
      all shortest chains to that node, and likewise for the rest of it. */
  ghost predicate IsCanonical(q: Query, p: seq<Link>, u: string, v: string)
    decreases |p|
  {
    && IsShortest(q, p, u, v)
    && (p != [] ==>
          && (forall p' | p' != [] && IsShortest(q, p', u, v) :: StrAtMost(Last(p).Id(), Last(p').Id()))
          && IsCanonical(q, Front(p), u, Last(p).localNodeId))
  }

  lemma ChainSnoc(q: Query, p: seq<Link>, l: Link, u: string)
    requires IsChain(q, p, u, l.localNodeId) && q.Usable(l)
    ensures IsChain(q, p + [l], u, l.remoteNodeId)
    ensures Cost(q, p + [l]) == Cost(q, p) + q.Weight(l)
  {
    assert Front(p + [l]) == p;
  }

  lemma {:induction false} ChainConcat(q: Query, p: seq<Link>, p': seq<Link>, u: string, v: string, w: string)
    requires IsChain(q, p, u, v) && IsChain(q, p', v, w)
    ensures IsChain(q, p + p', u, w)
    decreases |p'|
  {
    if p' == [] {
      assert p + p' == p;
    } else {
      ChainConcat(q, p, Front(p'), u, v, Last(p').localNodeId);
      assert Front(p + p') == p + Front(p');
    }
  }

  lemma {:induction false} CostConcat(q: Query, p: seq<Link>, p': seq<Link>)
    ensures Cost(q, p + p') == Cost(q, p) + Cost(q, p')
    decreases |p'|
  {
    if p' == [] {
      assert p + p' == p;
    } else {
      CostConcat(q, p, Front(p'));
      assert Front(p + p') == p + Front(p');
    }
  }

  /** A chain of no cost takes no link, since every usable weight is at least one. */
  lemma FreeChain(q: Query, p: seq<Link>, u: string, v: string)
    requires IsChain(q, p, u, v) && Cost(q, p) == 0
    ensures p == []
  {
  }

  /** The canonical chain is unique, so it cannot depend on the order of links or of queue removals. */
  lemma {:induction false} CanonicalUnique(q: Query, p: seq<Link>, p': seq<Link>, u: string, v: string)
    requires DistinctLinkIds(q.g)
    requires IsCanonical(q, p, u, v) && IsCanonical(q, p', u, v)
    ensures p == p'
    decreases |p|
  {
    assert Cost(q, p) == Cost(q, p');
    if p == [] {
      FreeChain(q, p', u, v);
    } else if p' == [] {
      FreeChain(q, p, u, v);
    } else {
      StrAtMostAntisym(Last(p).Id(), Last(p').Id());
      assert Last(p) == Last(p');
      CanonicalUnique(q, Front(p), Front(p'), u, Last(p).localNodeId);
      assert p == Front(p) + [Last(p)] && p' == Front(p') + [Last(p')];
    }
  }
}
