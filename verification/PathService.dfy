/** Path and impact requests, from the stored maps to the answer
    (internal/api/topology.go:344-423). */
module PathService {
  import opened Entities
  import opened Sorting
  import opened Journal
  import opened Recovery
  import opened Graphs
  import opened Routes
  import opened Alternatives
  import opened Impact
  import opened Paging

  // ---------------------------------------------------------------- the graph of a domain

  /** filterDomainNodes, on a listing of nodes. */
  function DomainNodes(items: seq<Entity>, domain: string): (r: seq<Node>) {
    if items == [] then []
    else
      DomainNodes(items[..|items| - 1], domain) +
      match items[|items| - 1]
      case NodeEntity(n) => if n.meta.domainId == domain then [n] else []
      case _ => []
  }

  /** filterDomainLinks. */
  function DomainLinks(items: seq<Entity>, domain: string): (r: seq<Link>)
    ensures forall l | l in r :: LinkEntity(l) in items && l.meta.domainId == domain
  {
    if items == [] then []
    else
      DomainLinks(items[..|items| - 1], domain) +
      match items[|items| - 1]
      case LinkEntity(l) => if l.meta.domainId == domain then [l] else []
      case _ => []
  }

  /** filterDomainPrefixes. */
  function DomainPrefixes(items: seq<Entity>, domain: string): (r: seq<Prefix>) {
    if items == [] then []
    else
      DomainPrefixes(items[..|items| - 1], domain) +
      match items[|items| - 1]
      case PrefixEntity(p) => if p.meta.domainId == domain then [p] else []
      case _ => []
  }

  method KeepNodes(items: seq<Entity>, domain: string) returns (r: seq<Node>)
    ensures r == DomainNodes(items, domain)
  {
    r := [];
    for i := 0 to |items|
      invariant r == DomainNodes(items[..i], domain)
    {
      assert items[..i + 1][..i] == items[..i];
      match items[i]
      case NodeEntity(n) => if n.meta.domainId == domain { r := r + [n]; }
      case _ =>
    }
    assert items[..|items|] == items;
  }

  method KeepLinks(items: seq<Entity>, domain: string) returns (r: seq<Link>)
    ensures r == DomainLinks(items, domain)
  {
    r := [];
    for i := 0 to |items|
      invariant r == DomainLinks(items[..i], domain)
    {
      assert items[..i + 1][..i] == items[..i];
      match items[i]
      case LinkEntity(l) => if l.meta.domainId == domain { r := r + [l]; }
      case _ =>
    }
    assert items[..|items|] == items;
  }

  method KeepPrefixes(items: seq<Entity>, domain: string) returns (r: seq<Prefix>)
    ensures r == DomainPrefixes(items, domain)
  {
    r := [];
    for i := 0 to |items|
      invariant r == DomainPrefixes(items[..i], domain)
    {
      assert items[..i + 1][..i] == items[..i];
      match items[i]
      case PrefixEntity(p) => if p.meta.domainId == domain { r := r + [p]; }
      case _ =>
    }
    assert items[..|items|] == items;
  }

  /** The graph is built from what the stored maps list for a domain. */
  ghost predicate GraphFrom(g: Graph, nodes: seq<Entity>, links: seq<Entity>, mem: Mem, domain: string)
  {
    && IsListing(nodes, mem, NodeKind) && IsListing(links, mem, LinkKind)
    && Built(g, DomainNodes(nodes, domain), DomainLinks(links, domain))
  }

  ghost predicate GraphOf(g: Graph, mem: Mem, domain: string) {
    exists nodes, links :: GraphFrom(g, nodes, links, mem, domain)
  }

  /** Links that are stored under their ids have distinct ids, and so do those of the graph. */
  lemma StoredLinksDistinct(g: Graph, mem: Mem, domain: string)
    requires GraphOf(g, mem, domain)
    ensures WellFormed(g) && DistinctLinkIds(g)
  {
    var nodes, links :| GraphFrom(g, nodes, links, mem, domain);
    ListingDistinct(links);
    forall a, b | HasLink(g, a) && HasLink(g, b) && a.Id() == b.Id() ensures a == b {
      assert LinkEntity(a) in links && LinkEntity(b) in links;
      assert OwnId(LinkEntity(a)) == OwnId(LinkEntity(b));
    }
  }

  /** The stored maps determine the graph of a domain. */
  lemma GraphUnique(g: Graph, g': Graph, mem: Mem, domain: string)
    requires GraphOf(g, mem, domain) && GraphOf(g', mem, domain) && g.revision == g'.revision
    ensures g == g'
  {
    var nodes, links :| GraphFrom(g, nodes, links, mem, domain);
    var nodes', links' :| GraphFrom(g', nodes', links', mem, domain);
    ListingUnique(nodes, nodes', mem, NodeKind);
    ListingUnique(links, links', mem, LinkKind);
    StoredLinksDistinct(g, mem, domain);
    StoredLinksDistinct(g', mem, domain);
    BuiltUnique(g, g', DomainNodes(nodes, domain), DomainLinks(links, domain));
  }

  lemma {:induction false} DomainNodesMembers(items: seq<Entity>, domain: string, n: Node)
    ensures n in DomainNodes(items, domain) <==> NodeEntity(n) in items && n.meta.domainId == domain
  {
    if items != [] {
      DomainNodesMembers(items[..|items| - 1], domain, n);
      assert items == items[..|items| - 1] + [items[|items| - 1]];
    }
  }

  lemma {:induction false} DomainLinksMembers(items: seq<Entity>, domain: string, l: Link)
    ensures l in DomainLinks(items, domain) <==> LinkEntity(l) in items && l.meta.domainId == domain
  {
    if items != [] {
      DomainLinksMembers(items[..|items| - 1], domain, l);
      assert items == items[..|items| - 1] + [items[|items| - 1]];
    }
  }

  lemma {:induction false} DomainPrefixesMembers(items: seq<Entity>, domain: string, p: Prefix)
    ensures p in DomainPrefixes(items, domain) <==> PrefixEntity(p) in items && p.meta.domainId == domain
  {
    if items != [] {
      DomainPrefixesMembers(items[..|items| - 1], domain, p);
      assert items == items[..|items| - 1] + [items[|items| - 1]];
    }
  }

  /** The prefixes of a request are exactly the stored ones of the domain. */
  lemma PrefixesStored(items: seq<Entity>, mem: Mem, domain: string, p: Prefix)
    requires IsListing(items, mem, PrefixKind)
    ensures p in DomainPrefixes(items, domain) <==>
            Get(mem, EntityKey(PrefixKind, p.meta.id)) == Some(PrefixEntity(p)) && p.meta.domainId == domain
  {
    DomainPrefixesMembers(items, domain, p);
  }

  /** A node is stored, in this domain and active. */
  ghost predicate StoredNode(mem: Mem, domain: string, n: Node) {
    && Get(mem, EntityKey(NodeKind, n.meta.id)) == Some(NodeEntity(n))
    && n.meta.domainId == domain && n.meta.freshness == Active
  }

  lemma NodesStored(g: Graph, mem: Mem, domain: string, n: Node)
    requires GraphOf(g, mem, domain)
    ensures n.meta.id in g.nodes && g.nodes[n.meta.id] == n <==> StoredNode(mem, domain, n)
  {
    var nodes, links :| GraphFrom(g, nodes, links, mem, domain);
    DomainNodesMembers(nodes, domain, n);
    var id := n.meta.id;
    if id in g.nodes {
      DomainNodesMembers(nodes, domain, g.nodes[id]);
      assert OwnKey(NodeEntity(g.nodes[id])) == OwnKey(NodeEntity(n));
    }
  }

  lemma LinksStored(g: Graph, mem: Mem, domain: string, l: Link)
    requires GraphOf(g, mem, domain)
    ensures HasLink(g, l) <==>
            && Get(mem, EntityKey(LinkKind, l.meta.id)) == Some(LinkEntity(l)) && l.meta.domainId == domain
            && l.meta.freshness == Active && l.localNodeId in g.nodes && l.remoteNodeId in g.nodes
  {
    var nodes, links :| GraphFrom(g, nodes, links, mem, domain);
    DomainLinksMembers(links, domain, l);
  }

  method BuildGraph(revision: uint64, mem: Mem, domain: string) returns (g: Graph)
    requires OwnKeyed(mem)
    ensures g.revision == revision && GraphOf(g, mem, domain)
  {
    var nodes := ListKind(mem, NodeKind);
    var links := ListKind(mem, LinkKind);
    var domainNodes := KeepNodes(nodes, domain);
    var domainLinks := KeepLinks(links, domain);
    g := NewGraph(revision, domainNodes, domainLinks);
    assert GraphFrom(g, nodes, links, mem, domain);
  }

  // ---------------------------------------------------------------- ComputePaths

  /** What a path request asks, with both ends resolved. */
  datatype PathRequest = PathRequest(domain: string, source: string, destination: string, metric: PathMetric,
                                     c: Option<Constraints>, maxPaths: int)

  /** What a path request answers over the graph of its domain. */
  ghost predicate AnswersPaths(g: Graph, req: PathRequest, res: Option<seq<Route>>) {
    var q := Query(g, req.metric, req.c);
    && (res.Some? <==> AllLinked(q, Waypoints(q, req.source, req.destination)))
    && (res.Some? ==> Alternates(q, req.source, req.destination, req.maxPaths, res.value))
    && (res.Some? ==> Exhaustive(q, req.source, req.destination, req.maxPaths, res.value))
  }

  ghost predicate PathsOf(revision: uint64, mem: Mem, req: PathRequest, res: Option<seq<Route>>) {
    exists g: Graph :: g.revision == revision && GraphOf(g, mem, req.domain) && AnswersPaths(g, req, res)
  }

  method ComputePaths(revision: uint64, mem: Mem, req: PathRequest) returns (res: Option<seq<Route>>)
    requires OwnKeyed(mem)
    ensures PathsOf(revision, mem, req, res)
  {
    var g := BuildGraph(revision, mem, req.domain);
    StoredLinksDistinct(g, mem, req.domain);
    res := ComputeMany(Query(g, req.metric, req.c), req.source, req.destination, req.maxPaths);
  }

  /** The answer to a path request is a function of the stored maps and the request. */
  lemma PathsUnique(revision: uint64, mem: Mem, req: PathRequest, a: Option<seq<Route>>, b: Option<seq<Route>>)
    requires PathsOf(revision, mem, req, a) && PathsOf(revision, mem, req, b)
    ensures a == b
  {
    var g: Graph :| g.revision == revision && GraphOf(g, mem, req.domain) && AnswersPaths(g, req, a);
    var g': Graph :| g'.revision == revision && GraphOf(g', mem, req.domain) && AnswersPaths(g', req, b);
    GraphUnique(g, g', mem, req.domain);
    StoredLinksDistinct(g, mem, req.domain);
    AnswersAgree(g, req, a, b);
  }

  lemma AnswersAgree(g: Graph, req: PathRequest, a: Option<seq<Route>>, b: Option<seq<Route>>)
    requires DistinctLinkIds(g) && AnswersPaths(g, req, a) && AnswersPaths(g, req, b)
    ensures a == b
  {
    if a.Some? {
      AlternativesUnique(Query(g, req.metric, req.c), req.source, req.destination, req.maxPaths, a.value, b.value);
    }
  }

  // ---------------------------------------------------------------- AnalyzeImpact

  ghost predicate ImpactOf(revision: uint64, mem: Mem, domain: string, failedNodes: seq<string>,
                           failedLinks: seq<string>, r: Report)
  {
    exists g: Graph, prefixes: seq<Entity> ::
      && g.revision == revision && GraphOf(g, mem, domain) && IsListing(prefixes, mem, PrefixKind)
      && IsImpact(Damage(g, Elements(failedNodes), Elements(failedLinks)), DomainPrefixes(prefixes, domain), r)
  }

  method AnalyzeImpact(revision: uint64, mem: Mem, domain: string, failedNodes: seq<string>, failedLinks: seq<string>)
    returns (r: Report)
    requires OwnKeyed(mem)
    ensures ImpactOf(revision, mem, domain, failedNodes, failedLinks, r)
  {
    var g := BuildGraph(revision, mem, domain);
    StoredLinksDistinct(g, mem, domain);
    var prefixes := ListKind(mem, PrefixKind);
    var domainPrefixes := KeepPrefixes(prefixes, domain);
    r := Analyze(g, failedNodes, failedLinks, domainPrefixes);
  }

  /** So is the report of an impact request. */
  lemma ImpactReportUnique(revision: uint64, mem: Mem, domain: string, failedNodes: seq<string>,
                           failedLinks: seq<string>, a: Report, b: Report)
    requires ImpactOf(revision, mem, domain, failedNodes, failedLinks, a)
    requires ImpactOf(revision, mem, domain, failedNodes, failedLinks, b)
    ensures a == b
  {
    var g: Graph, p: seq<Entity> :|
      g.revision == revision && GraphOf(g, mem, domain) && IsListing(p, mem, PrefixKind)
      && IsImpact(Damage(g, Elements(failedNodes), Elements(failedLinks)), DomainPrefixes(p, domain), a);
    var g': Graph, p': seq<Entity> :|
      g'.revision == revision && GraphOf(g', mem, domain) && IsListing(p', mem, PrefixKind)
      && IsImpact(Damage(g', Elements(failedNodes), Elements(failedLinks)),
                  DomainPrefixes(p', domain), b);
    GraphUnique(g, g', mem, domain);
    ListingUnique(p, p', mem, PrefixKind);
    ImpactUnique(Damage(g, Elements(failedNodes), Elements(failedLinks)), DomainPrefixes(p, domain), a, b);
  }
}
