/** What a set of failures disconnects (internal/topology/graph.go:270-338). */
module Impact {
  import opened Entities
  import opened Orders
  import opened Sorting
  import opened Graphs

  // ---------------------------------------------------------------- connectivity after a failure

  /** A graph with failed nodes and failed links. */
  datatype Damage = Damage(g: Graph, nodes: set<string>, links: set<string>) {

    predicate Alive(u: string) {
      u in g.nodes && u !in nodes
    }

    predicate Intact(id: string) {
      && id in g.links && id !in links
      && g.links[id].localNodeId !in nodes && g.links[id].remoteNodeId !in nodes
    }

    /** An intact link runs between u and v, in either direction. */
    ghost predicate Joined(u: string, v: string) {
      exists id :: Intact(id) && ((g.links[id].localNodeId == u && g.links[id].remoteNodeId == v)
                                  || (g.links[id].localNodeId == v && g.links[id].remoteNodeId == u))
    }

    ghost predicate IsPath(p: seq<string>) {
      p != [] && forall i | 0 <= i < |p| - 1 :: Joined(p[i], p[i + 1])
    }

    ghost predicate Connected(u: string, v: string) {
      exists p :: IsPath(p) && p[0] == u && Last(p) == v
    }
  }

  lemma ConnectedSelf(d: Damage, u: string)
    ensures d.Connected(u, u)
  {
    assert d.IsPath([u]);
  }

  lemma ConnectedStep(d: Damage, u: string, v: string, w: string)
    requires d.Connected(u, v) && d.Joined(v, w)
    ensures d.Connected(u, w)
  {
    var p :| d.IsPath(p) && p[0] == u && Last(p) == v;
    assert d.IsPath(p + [w]);
  }

  /** A set that contains u and is closed under joining holds everything connected to u. */
  lemma {:induction false} ClosedHolds(d: Damage, s: set<string>, p: seq<string>)
    requires d.IsPath(p) && p[0] in s
    requires forall a, b | a in s && d.Joined(a, b) :: b in s
    ensures forall v | v in p :: v in s
    decreases |p|
  {
    if |p| > 1 {
      assert d.Joined(p[0], p[1]);
      assert d.IsPath(p[1..]) by {
        forall i | 0 <= i < |p[1..]| - 1 ensures d.Joined(p[1..][i], p[1..][i + 1]) {
          assert d.Joined(p[i + 1], p[i + 2]);
        }
      }
      ClosedHolds(d, s, p[1..]);
      assert p == [p[0]] + p[1..];
    }
  }

  lemma ConnectedTrans(d: Damage, u: string, v: string, w: string)
    requires d.Connected(u, v) && d.Connected(v, w)
    ensures d.Connected(u, w)
  {
    var p :| d.IsPath(p) && p[0] == u && Last(p) == v;
    var r :| d.IsPath(r) && r[0] == v && Last(r) == w;
    var t := p + r[1..];
    forall i | 0 <= i < |t| - 1 ensures d.Joined(t[i], t[i + 1]) {
      if i < |p| - 1 {
        assert d.Joined(p[i], p[i + 1]);
      } else {
        assert d.Joined(r[i + 1 - |p|], r[i + 2 - |p|]);
      }
    }
    assert d.IsPath(t) && t[0] == u && Last(t) == w;
  }

  lemma ConnectedSym(d: Damage, u: string, v: string)
    requires d.Connected(u, v)
    ensures d.Connected(v, u)
  {
    var p :| d.IsPath(p) && p[0] == u && Last(p) == v;
    var r := seq(|p|, i requires 0 <= i < |p| => p[|p| - 1 - i]);
    forall i | 0 <= i < |r| - 1 ensures d.Joined(r[i], r[i + 1]) {
      assert d.Joined(p[|p| - 2 - i], p[|p| - 1 - i]);
    }
    assert d.IsPath(r) && r[0] == v && Last(r) == u;
  }

  lemma JoinedAlive(d: Damage, u: string, v: string)
    requires WellFormed(d.g) && d.Joined(u, v)
    ensures d.Alive(u) && d.Alive(v)
  {
    var id :| d.Intact(id) && ((d.g.links[id].localNodeId == u && d.g.links[id].remoteNodeId == v)
                               || (d.g.links[id].localNodeId == v && d.g.links[id].remoteNodeId == u));
    assert HasLink(d.g, d.g.links[id]);
  }

  // ---------------------------------------------------------------- the neighbour lists

  type Neighbours = map<string, seq<string>>

  function Of(near: Neighbours, u: string): seq<string> {
    if u in near then near[u] else []
  }

  function Append(near: Neighbours, u: string, v: string): Neighbours {
    near[u := Of(near, u) + [v]]
  }

  ghost predicate Lists(d: Damage, done: set<string>, near: Neighbours) {
    forall u, v :: v in Of(near, u) <==>
                   exists id :: id in done && d.Intact(id)
                                && ((d.g.links[id].localNodeId == u && d.g.links[id].remoteNodeId == v)
                                    || (d.g.links[id].localNodeId == v && d.g.links[id].remoteNodeId == u))
  }

  lemma ListsMore(d: Damage, done: set<string>, near: Neighbours, id: string)
    requires Lists(d, done, near)
    ensures d.Intact(id) ==>
              var l := d.g.links[id];
              Lists(d, done + {id}, Append(Append(near, l.localNodeId, l.remoteNodeId), l.remoteNodeId, l.localNodeId))
    ensures !d.Intact(id) ==> Lists(d, done + {id}, near)
  {
    if d.Intact(id) {
      var a, b := d.g.links[id].localNodeId, d.g.links[id].remoteNodeId;
      var near' := Append(Append(near, a, b), b, a);
      forall u, v ensures v in Of(near', u) <==> v in Of(near, u) || (u == a && v == b) || (u == b && v == a) {
      }
    }
  }

  /** Joins both ends of every intact link, taking the links in any order (graph.go:279-286). */
  method Undirect(d: Damage) returns (near: Neighbours)
    ensures forall u, v :: v in Of(near, u) <==> d.Joined(u, v)
  {
    near := map[];
    var left, done: set<string> := d.g.links.Keys, {};
    while left != {}
      invariant left + done == d.g.links.Keys
      invariant Lists(d, done, near)
      decreases left
    {
      var id :| id in left;
      ListsMore(d, done, near, id);
      if d.Intact(id) {
        var l := d.g.links[id];
        near := Append(Append(near, l.localNodeId, l.remoteNodeId), l.remoteNodeId, l.localNodeId);
      }
      left, done := left - {id}, done + {id};
    }
  }

  // ---------------------------------------------------------------- flooding one component

  /** The nodes found from `root`, apart from those seen before: all connected to it. */
  ghost predicate Flooding(d: Damage, root: string, before: set<string>, seen: set<string>, comp: seq<string>,
                           queue: seq<string>)
  {
    && before <= seen && seen - before == Elements(comp + queue)
    && (forall v | v in comp + queue :: d.Alive(v) && d.Connected(root, v))
    && (forall i, j | 0 <= i < j < |comp + queue| :: (comp + queue)[i] != (comp + queue)[j])
    && root in comp + queue
  }

  ghost predicate ClosedUnder(d: Damage, s: set<string>, seen: set<string>) {
    forall u, v | u in s && d.Joined(u, v) :: v in seen
  }

  lemma FloodMore(d: Damage, root: string, before: set<string>, seen: set<string>, comp: seq<string>,
                  queue: seq<string>, n: string, v: string)
    requires WellFormed(d.g) && Flooding(d, root, before, seen, comp, queue)
    requires n in comp && d.Joined(n, v) && v !in seen
    ensures Flooding(d, root, before, seen + {v}, comp, queue + [v])
  {
    assert n in comp + queue;
    ConnectedStep(d, root, n, v);
    JoinedAlive(d, n, v);
    var all := comp + queue;
    assert comp + (queue + [v]) == all + [v];
    forall i | 0 <= i < |all| ensures all[i] != v {
      assert all[i] in Elements(all);
    }
    assert Elements(all + [v]) == Elements(all) + {v};
  }

  /** Marks the unseen neighbours of one node and queues them (graph.go:300-305). */
  method Visit(d: Damage, near: Neighbours, ghost root: string, ghost before: set<string>, n: string,
               seen: set<string>, ghost comp: seq<string>, queue: seq<string>)
    returns (seen': set<string>, queue': seq<string>)
    requires WellFormed(d.g) && Flooding(d, root, before, seen, comp, queue) && n in comp
    requires forall u, v :: v in Of(near, u) <==> d.Joined(u, v)
    ensures Flooding(d, root, before, seen', comp, queue') && seen <= seen'
    ensures ClosedUnder(d, {n}, seen') && (seen' == seen ==> queue' == queue)
  {
    seen', queue' := seen, queue;
    var list := Of(near, n);
    for i := 0 to |list|
      invariant Flooding(d, root, before, seen', comp, queue') && seen <= seen'
      invariant forall v | v in list[..i] :: v in seen'
      invariant seen' == seen ==> queue' == queue
    {
      var v := list[i];
      if v !in seen' {
        assert v in Of(near, n);
        FloodMore(d, root, before, seen', comp, queue', n, v);
        assert v !in seen;
        seen', queue' := seen' + {v}, queue' + [v];
      }
    }
    assert list[..|list|] == list;
  }

  ghost predicate IsClass(d: Damage, root: string, comp: seq<string>) {
    && d.Alive(root)
    && (forall v :: v in comp <==> d.Connected(root, v))
    && (forall v | v in comp :: d.Alive(v))
    && (forall i, j | 0 <= i < j < |comp| :: comp[i] != comp[j])
  }

  /** Once the queue is empty, what was flooded is the whole class of the root. */
  lemma FloodIsClass(d: Damage, root: string, before: set<string>, seen: set<string>, comp: seq<string>)
    requires Flooding(d, root, before, seen, comp, [])
    requires ClosedUnder(d, Elements(comp), seen) && ClosedUnder(d, before, before)
    ensures IsClass(d, root, comp)
  {
    assert comp + [] == comp;
    var s := Elements(comp);
    forall a, b | a in s && d.Joined(a, b) ensures b in s {
      assert d.Joined(b, a);
      assert b in seen;
      assert a in seen - before;
    }
    forall v | d.Connected(root, v) ensures v in comp {
      var p :| d.IsPath(p) && p[0] == root && Last(p) == v;
      ClosedHolds(d, s, p);
      assert Last(p) in p;
    }
  }

  lemma DequeueFlood(d: Damage, root: string, before: set<string>, seen: set<string>, comp: seq<string>,
                     queue: seq<string>)
    requires queue != [] && Flooding(d, root, before, seen, comp, queue)
    ensures Flooding(d, root, before, seen, comp + [queue[0]], queue[1..])
  {
    assert (comp + [queue[0]]) + queue[1..] == comp + queue;
  }

  /** Breadth-first search from a root (graph.go:293-306). */
  method Flood(d: Damage, near: Neighbours, root: string, before: set<string>)
    returns (comp: seq<string>, seen: set<string>)
    requires WellFormed(d.g) && d.Alive(root) && root !in before && ClosedUnder(d, before, before)
    requires forall u, v :: v in Of(near, u) <==> d.Joined(u, v)
    ensures IsClass(d, root, comp) && seen == before + Elements(comp) && before !! Elements(comp)
    ensures ClosedUnder(d, seen, seen)
  {
    var queue := [root];
    seen, comp := before + {root}, [];
    ConnectedSelf(d, root);
    ghost var alive := set u | u in d.g.nodes && d.Alive(u);
    while queue != []
      invariant Flooding(d, root, before, seen, comp, queue)
      invariant ClosedUnder(d, Elements(comp), seen)
      decreases alive - seen, |queue|
    {
      var n := queue[0];
      DequeueFlood(d, root, before, seen, comp, queue);
      comp, queue := comp + [n], queue[1..];
      ghost var seenBefore := seen;
      seen, queue := Visit(d, near, root, before, n, seen, comp, queue);
      assert alive - seen <= alive - seenBefore;
      if seen != seenBefore {
        var v :| v in seen && v !in seenBefore;
        assert v in Elements(comp + queue);
        assert v in alive - seenBefore;
      }
    }
    assert comp + [] == comp;
    FloodIsClass(d, root, before, seen, comp);
  }

  // ---------------------------------------------------------------- the components

  /** Larger components first; among equals, the one with the least id. */
  predicate ComponentLess(a: seq<string>, b: seq<string>) {
    if |a| == |b| then a != [] && StrLess(a[0], b[0]) else |a| > |b|
  }

  /** A component as Analyze lists it: a whole class, in id order. */
  ghost predicate IsComponent(d: Damage, c: seq<string>) {
    c != [] && IsClass(d, c[0], c) && Sorted(StrLess, c)
  }

  ghost predicate Covered(comps: seq<seq<string>>, u: string) {
    exists c :: c in comps && u in c
  }

  /** The components of the surviving nodes, in Analyze's order. */
  ghost predicate Partition(d: Damage, comps: seq<seq<string>>) {
    && (forall c | c in comps :: IsComponent(d, c))
    && (forall u {:trigger Covered(comps, u)} | d.Alive(u) :: Covered(comps, u))
    && Distinct(comps)
    && Sorted(ComponentLess, comps)
  }

  lemma Reroot(d: Damage, root: string, c: seq<string>, r: string)
    requires IsClass(d, root, c) && r in c
    ensures IsClass(d, r, c)
  {
    ConnectedSym(d, root, r);
    forall v ensures d.Connected(r, v) <==> d.Connected(root, v) {
      if d.Connected(r, v) { ConnectedTrans(d, root, r, v); }
      if d.Connected(root, v) { ConnectedTrans(d, r, root, v); }
    }
  }

  lemma SortedComponent(d: Damage, root: string, comp: seq<string>)
    requires IsClass(d, root, comp)
    ensures IsComponent(d, Sort(StrLess, comp)) && Elements(Sort(StrLess, comp)) == Elements(comp)
  {
    var c := Sort(StrLess, comp);
    StringsOrdered(Elements(comp));
    SortSorts(StrLess, comp);
    SortPermutes(StrLess, comp);
    assert Distinct(comp);
    DistinctCounts(comp);
    DistinctCounts(c);
    ConnectedSelf(d, root);
    assert forall v :: v in c <==> v in Elements(comp);
    assert root in comp;
    Reroot(d, root, c, c[0]);
  }

  lemma ComponentsOrdered(d: Damage, comps: set<seq<string>>)
    requires forall c | c in comps :: IsComponent(d, c)
    ensures WeakOrder(ComponentLess, comps) && Separates(ComponentLess, comps)
  {
    forall a, b | a in comps && b in comps
      ensures ComponentLess(a, b) ==> !ComponentLess(b, a)
      ensures a != b ==> ComponentLess(a, b) || ComponentLess(b, a)
    {
      StrLessTotal(a[0], b[0]);
      if StrLess(a[0], b[0]) { StrLessAsym(a[0], b[0]); }
      if a[0] == b[0] { SameRoot(d, a, b); }
    }
    forall a, b, c | a in comps && b in comps && c in comps && !ComponentLess(b, a) && !ComponentLess(c, b)
      ensures !ComponentLess(c, a)
    {
      if |a| == |b| == |c| { StrAtMostTrans(a[0], b[0], c[0]); }
    }
  }

  /** Components that share a node are the same. */
  lemma SameRoot(d: Damage, a: seq<string>, b: seq<string>)
    requires IsComponent(d, a) && IsComponent(d, b) && a[0] in b
    ensures a == b
  {
    Reroot(d, b[0], b, a[0]);
    assert forall v :: v in a <==> v in b;
    assert Distinct(a) && Distinct(b);
    assert Elements(a) == Elements(b);
    DistinctBag(a, b);
    StringsOrdered(Elements(a));
    SortedUnique(StrLess, a, b);
  }

  /** Floods every surviving node, in any order (graph.go:287-309). */
  method Components(d: Damage) returns (comps: seq<seq<string>>)
    requires WellFormed(d.g)
    ensures forall c | c in comps :: IsComponent(d, c)
    ensures forall u {:trigger Covered(comps, u)} | d.Alive(u) :: Covered(comps, u)
    ensures Distinct(comps)
  {
    var near := Undirect(d);
    var seen: set<string>, left := {}, d.g.nodes.Keys;
    comps := [];
    while left != {}
      invariant left <= d.g.nodes.Keys
      invariant ClosedUnder(d, seen, seen)
      invariant forall c | c in comps :: IsComponent(d, c) && Elements(c) <= seen
      invariant forall u {:trigger Covered(comps, u)} | u in seen :: Covered(comps, u)
      invariant forall u | d.Alive(u) && u !in left :: u in seen
      invariant Distinct(comps)
      decreases left
    {
      var id :| id in left;
      left := left - {id};
      if id in d.nodes || id in seen { continue; }
      var comp, seen' := Flood(d, near, id, seen);
      SortedComponent(d, id, comp);
      var c := Sort(StrLess, comp);
      ComponentMore(d, comps, seen, seen', c);
      ConnectedSelf(d, id);
      comps, seen := comps + [c], seen';
    }
  }

  lemma ComponentMore(d: Damage, comps: seq<seq<string>>, seen: set<string>, seen': set<string>, c: seq<string>)
    requires forall c | c in comps :: IsComponent(d, c) && Elements(c) <= seen
    requires forall u {:trigger Covered(comps, u)} | u in seen :: Covered(comps, u)
    requires Distinct(comps) && IsComponent(d, c) && seen' == seen + Elements(c) && seen !! Elements(c)
    ensures forall c' | c' in comps + [c] :: IsComponent(d, c') && Elements(c') <= seen'
    ensures forall u {:trigger Covered(comps + [c], u)} | u in seen' :: Covered(comps + [c], u)
    ensures Distinct(comps + [c])
  {
    assert c[0] in Elements(c);
    forall i | 0 <= i < |comps| ensures comps[i] != c {
      assert comps[i] in comps;
      assert c[0] !in Elements(comps[i]);
    }
    forall u | u in seen' ensures Covered(comps + [c], u) {
      if u in seen {
        assert Covered(comps, u);
        var c' :| c' in comps && u in c';
        assert c' in comps + [c];
      } else {
        assert c in comps + [c];
      }
    }
  }

  lemma SortedPartition(d: Damage, comps: seq<seq<string>>)
    requires forall c | c in comps :: IsComponent(d, c)
    requires forall u {:trigger Covered(comps, u)} | d.Alive(u) :: Covered(comps, u)
    requires Distinct(comps)
    ensures Partition(d, Sort(ComponentLess, comps))
  {
    var s := Sort(ComponentLess, comps);
    ComponentsOrdered(d, Elements(comps));
    SortSorts(ComponentLess, comps);
    SortPermutes(ComponentLess, comps);
    DistinctCounts(comps);
    DistinctCounts(s);
    assert forall c :: c in s <==> c in Elements(comps);
    forall u | d.Alive(u) ensures Covered(s, u) {
      assert Covered(comps, u);
    }
  }

  /** Two surviving nodes share a component exactly when intact links connect them, ignoring
      direction. */
  lemma SharedIffConnected(d: Damage, comps: seq<seq<string>>, u: string, v: string)
    requires Partition(d, comps) && d.Alive(u) && d.Alive(v)
    ensures (exists c :: c in comps && u in c && v in c) <==> d.Connected(u, v)
  {
    assert Covered(comps, u);
    var c :| c in comps && u in c;
    Reroot(d, c[0], c, u);
    if c' :| c' in comps && u in c' && v in c' {
      Reroot(d, c'[0], c', u);
    }
  }

  /** The partition is unique, so it cannot depend on the order in which maps are iterated. */
  lemma PartitionUnique(d: Damage, a: seq<seq<string>>, b: seq<seq<string>>)
    requires Partition(d, a) && Partition(d, b)
    ensures a == b
  {
    PartitionWithin(d, a, b);
    PartitionWithin(d, b, a);
    assert Elements(a) == Elements(b);
    DistinctBag(a, b);
    ComponentsOrdered(d, Elements(a));
    SortedUnique(ComponentLess, a, b);
  }

  lemma PartitionWithin(d: Damage, a: seq<seq<string>>, b: seq<seq<string>>)
    requires Partition(d, a) && Partition(d, b)
    ensures forall c | c in a :: c in b
  {
    forall c | c in a ensures c in b {
      assert d.Alive(c[0]) && Covered(b, c[0]);
      var c' :| c' in b && c[0] in c';
      SameRoot(d, c, c');
    }
  }

  // ---------------------------------------------------------------- Analyze

  datatype Report = Report(revision: uint64, components: seq<seq<string>>,
                           unreachableNodes: seq<string>, unreachablePrefixes: seq<string>)

  function Flatten(comps: seq<seq<string>>): (r: seq<string>) {
    if comps == [] then [] else Flatten(comps[..|comps| - 1]) + comps[|comps| - 1]
  }

  /** The nodes of every component after the first. */
  function Outside(comps: seq<seq<string>>): seq<string> {
    if |comps| > 1 then Flatten(comps[1..]) else []
  }

  /** A prefix is lost when its origin failed or cannot be reached. */
  predicate Lost(p: Prefix, d: Damage, unreachable: seq<string>) {
    p.originNodeId in d.nodes || p.originNodeId in unreachable
  }

  function LostIds(prefixes: seq<Prefix>, d: Damage, unreachable: seq<string>): (r: seq<string>) {
    if prefixes == [] then []
    else
      var p := prefixes[|prefixes| - 1];
      LostIds(prefixes[..|prefixes| - 1], d, unreachable) + if Lost(p, d, unreachable) then [p.meta.id] else []
  }

  method LosePrefixes(prefixes: seq<Prefix>, d: Damage, unreachable: seq<string>) returns (ids: seq<string>)
    ensures ids == LostIds(prefixes, d, unreachable)
  {
    ids := [];
    for i := 0 to |prefixes|
      invariant ids == LostIds(prefixes[..i], d, unreachable)
    {
      var p := prefixes[i];
      assert prefixes[..i + 1][..i] == prefixes[..i];
      if p.originNodeId in d.nodes {
        ids := ids + [p.meta.id];
        continue;
      }
      for j := 0 to |unreachable|
        invariant p.originNodeId !in unreachable[..j]
        invariant ids == LostIds(prefixes[..i], d, unreachable)
      {
        if p.originNodeId == unreachable[j] {
          ids := ids + [p.meta.id];
          break;
        }
      }
    }
    assert prefixes[..|prefixes|] == prefixes;
  }

  /** The report that a partition determines. */
  ghost function ReportOf(d: Damage, prefixes: seq<Prefix>, comps: seq<seq<string>>): Report {
    var unreachable := Outside(comps);
    Report(d.g.revision, if |comps| > 1 then comps else [],
           Sort(StrLess, unreachable), Sort(StrLess, LostIds(prefixes, d, unreachable)))
  }

  method Block(ids: seq<string>) returns (blocked: set<string>)
    ensures blocked == Elements(ids)
  {
    blocked := {};
    for i := 0 to |ids|
      invariant blocked == Elements(ids[..i])
    {
      blocked := blocked + {ids[i]};
    }
    assert ids[..|ids|] == ids;
  }

  ghost predicate IsImpact(d: Damage, prefixes: seq<Prefix>, r: Report) {
    exists comps :: Partition(d, comps) && r == ReportOf(d, prefixes, comps)
  }

  /** Partitions the surviving nodes and reports what is cut off from the largest part. */
  method Analyze(g: Graph, failedNodes: seq<string>, failedLinks: seq<string>, prefixes: seq<Prefix>)
    returns (r: Report)
    requires WellFormed(g)
    ensures IsImpact(Damage(g, Elements(failedNodes), Elements(failedLinks)), prefixes, r)
  {
    var blockedNodes := Block(failedNodes);
    var blockedLinks := Block(failedLinks);
    var d := Damage(g, blockedNodes, blockedLinks);
    var found := Components(d);
    SortedPartition(d, found);
    var sorted := Sort(ComponentLess, found);
    var unreachable: seq<string> := [];
    if |sorted| > 1 {
      for i := 1 to |sorted|
        invariant unreachable == Flatten(sorted[1..i])
      {
        assert sorted[1..i + 1][..i - 1] == sorted[1..i];
        unreachable := unreachable + sorted[i];
      }
      assert sorted[1..|sorted|] == sorted[1..];
    }
    var lost := LosePrefixes(prefixes, d, unreachable);
    r := Report(g.revision, if |sorted| > 1 then sorted else [], Sort(StrLess, unreachable), Sort(StrLess, lost));
    assert r == ReportOf(d, prefixes, sorted);
  }

  // ---------------------------------------------------------------- what the report means

  lemma {:induction false} FlattenMembers(comps: seq<seq<string>>)
    ensures forall v :: v in Flatten(comps) <==> Covered(comps, v)
  {
    if comps != [] {
      var front, c := comps[..|comps| - 1], comps[|comps| - 1];
      assert comps == front + [c];
      FlattenMembers(front);
    }
  }

  lemma {:induction false} FlattenDistinct(d: Damage, comps: seq<seq<string>>)
    requires (forall c | c in comps :: IsComponent(d, c)) && Distinct(comps)
    ensures Distinct(Flatten(comps))
  {
    if comps != [] {
      var front, c := comps[..|comps| - 1], comps[|comps| - 1];
      FlattenDistinct(d, front);
      FlattenMembers(front);
      assert c in comps && IsComponent(d, c);
      forall i, j | 0 <= i < |Flatten(front)| && 0 <= j < |c| ensures Flatten(front)[i] != c[j] {
        LastApart(d, comps, c[j]);
        assert c[j] in c && Flatten(front)[i] in Flatten(front);
      }
    }
  }

  lemma LastApart(d: Damage, comps: seq<seq<string>>, v: string)
    requires (forall c | c in comps :: IsComponent(d, c)) && Distinct(comps) && comps != []
    ensures v in Last(comps) ==> !Covered(comps[..|comps| - 1], v)
  {
    LastRepeated(comps);
    if v in Last(comps) && Covered(comps[..|comps| - 1], v) {
      var c :| c in comps[..|comps| - 1] && v in c;
      ShareNode(d, Last(comps), c, v);
      assert false;
    }
  }

  lemma LastRepeated<T>(s: seq<T>)
    requires s != []
    ensures s[|s| - 1] in s[..|s| - 1] ==> !Distinct(s)
  {
    if s[|s| - 1] in s[..|s| - 1] {
      var k :| 0 <= k < |s| - 1 && s[..|s| - 1][k] == s[|s| - 1];
      assert s[k] == s[|s| - 1];
    }
  }

  lemma NotRepeated(comps: seq<seq<string>>, c: seq<string>)
    requires Distinct(comps) && comps != [] && c in comps[1..]
    ensures c != comps[0] && c in comps
  {
    var k :| 0 <= k < |comps[1..]| && comps[1..][k] == c;
    assert comps[k + 1] == c;
  }

  lemma ShareNode(d: Damage, a: seq<string>, b: seq<string>, v: string)
    requires IsComponent(d, a) && IsComponent(d, b) && v in a && v in b
    ensures a == b
  {
    Reroot(d, a[0], a, v);
    Reroot(d, b[0], b, v);
    SameRoot(d, a, b);
  }

  /** The least node of the first component. */
  function HubOf(comps: seq<seq<string>>): string {
    if comps != [] && comps[0] != [] then comps[0][0] else ""
  }

  /** Components after the first hold exactly the surviving nodes not connected to the first. */
  lemma OutsideFirst(d: Damage, comps: seq<seq<string>>, v: string)
    requires Partition(d, comps) && comps != []
    ensures v in Flatten(comps[1..]) <==> d.Alive(v) && !d.Connected(HubOf(comps), v)
  {
    FlattenMembers(comps[1..]);
    assert comps == [comps[0]] + comps[1..] && comps[0] in comps;
    if v in Flatten(comps[1..]) {
      var c :| c in comps[1..] && v in c;
      NotRepeated(comps, c);
      if v in comps[0] { ShareNode(d, c, comps[0], v); }
    } else if d.Alive(v) {
      assert Covered(comps, v);
      var c :| c in comps && v in c;
    }
  }

  lemma {:induction false} LostIdsMembers(prefixes: seq<Prefix>, d: Damage, unreachable: seq<string>)
    ensures forall x :: x in LostIds(prefixes, d, unreachable) <==>
                        exists p :: p in prefixes && p.meta.id == x && Lost(p, d, unreachable)
  {
    if prefixes != [] {
      var front, p := prefixes[..|prefixes| - 1], prefixes[|prefixes| - 1];
      assert prefixes == front + [p];
      LostIdsMembers(front, d, unreachable);
    }
  }

  /** hub is the node of least id in the largest component, ties going to the least id. */
  ghost predicate IsHub(d: Damage, comps: seq<seq<string>>, hub: string) {
    && Partition(d, comps) && comps != [] && hub == HubOf(comps)
    && forall c | c in comps[1..] ::
         |c| < |comps[0]| || (|c| == |comps[0]| && c != [] && StrLess(hub, c[0]))
  }

  /** The unreachable nodes are exactly the surviving nodes outside the largest component, listed
      once in order; the unreachable prefixes exactly those whose origin failed or is unreachable. */
  lemma ImpactMeaning(d: Damage, prefixes: seq<Prefix>, r: Report, comps: seq<seq<string>>)
    requires Partition(d, comps) && r == ReportOf(d, prefixes, comps)
    ensures comps != [] ==> IsHub(d, comps, HubOf(comps))
    ensures forall v :: v in r.unreachableNodes <==> comps != [] && d.Alive(v) && !d.Connected(HubOf(comps), v)
    ensures Sorted(StrLess, r.unreachableNodes) && Distinct(r.unreachableNodes)
    ensures forall x :: x in r.unreachablePrefixes <==>
                        exists p :: p in prefixes && p.meta.id == x
                                    && (p.originNodeId in d.nodes || p.originNodeId in r.unreachableNodes)
    ensures Sorted(StrLess, r.unreachablePrefixes)
  {
    var list := Outside(comps);
    OutsideMeaning(d, comps);
    SortedListing(list);
    SortedListing(LostIds(prefixes, d, list));
    LostIdsMembers(prefixes, d, list);
    DistinctCounts(list);
    DistinctCounts(r.unreachableNodes);
  }

  lemma OutsideMeaning(d: Damage, comps: seq<seq<string>>)
    requires Partition(d, comps)
    ensures comps != [] ==> IsHub(d, comps, HubOf(comps))
    ensures forall v :: v in Outside(comps) <==> comps != [] && d.Alive(v) && !d.Connected(HubOf(comps), v)
    ensures Distinct(Outside(comps))
  {
    if comps != [] {
      assert Outside(comps) == Flatten(comps[1..]);
      forall v ensures v in Outside(comps) <==> d.Alive(v) && !d.Connected(HubOf(comps), v) {
        OutsideFirst(d, comps, v);
      }
      HubIsLargest(d, comps);
      assert forall i, j | 0 <= i < j < |comps[1..]| :: comps[1..][i] == comps[i + 1] && comps[1..][j] == comps[j + 1];
      FlattenDistinct(d, comps[1..]);
    }
  }

  lemma HubIsLargest(d: Damage, comps: seq<seq<string>>)
    requires Partition(d, comps) && comps != []
    ensures IsHub(d, comps, HubOf(comps))
  {
    ComponentsOrdered(d, Elements(comps));
    forall c | c in comps[1..] ensures ComponentLess(comps[0], c) {
      NotRepeated(comps, c);
      assert comps[0] in Elements(comps) && c in Elements(comps);
      var k :| 0 <= k < |comps[1..]| && comps[1..][k] == c;
      assert comps[k + 1] == c && !ComponentLess(comps[k + 1], comps[0]);
    }
  }

  lemma SortedListing(s: seq<string>)
    ensures Sorted(StrLess, Sort(StrLess, s)) && multiset(Sort(StrLess, s)) == multiset(s)
    ensures forall x :: x in Sort(StrLess, s) <==> x in s
  {
    StringsOrdered(Elements(s));
    SortSorts(StrLess, s);
    SortPermutes(StrLess, s);
    assert forall x :: x in Sort(StrLess, s) <==> x in Elements(Sort(StrLess, s));
  }

  /** Every run of Analyze on the same input gives the same report. */
  lemma ImpactUnique(d: Damage, prefixes: seq<Prefix>, r: Report, r': Report)
    requires IsImpact(d, prefixes, r) && IsImpact(d, prefixes, r')
    ensures r == r'
  {
    var a :| Partition(d, a) && r == ReportOf(d, prefixes, a);
    var b :| Partition(d, b) && r' == ReportOf(d, prefixes, b);
    PartitionUnique(d, a, b);
  }

  // ---------------------------------------------------------------- the report itself

  /** What fails, on the records. */
  lemma DamageExactly(g: Graph, failedNodes: seq<string>, failedLinks: seq<string>, u: string, v: string)
    ensures var d := Damage(g, Elements(failedNodes), Elements(failedLinks));
            && (d.Alive(u) <==> u in g.nodes && u !in failedNodes)
            && (d.Joined(u, v) <==>
                  exists id :: id in g.links && id !in failedLinks
                               && g.links[id].localNodeId !in failedNodes && g.links[id].remoteNodeId !in failedNodes
                               && (g.links[id].localNodeId, g.links[id].remoteNodeId) in {(u, v), (v, u)})
  {
  }

  ghost predicate AllConnected(d: Damage) {
    forall u, v | d.Alive(u) && d.Alive(v) :: d.Connected(u, v)
  }

  lemma OnlyComponent(d: Damage, comps: seq<seq<string>>, u: string, v: string)
    requires Partition(d, comps) && |comps| <= 1 && d.Alive(u) && d.Alive(v)
    ensures d.Connected(u, v)
  {
    assert Covered(comps, u) && Covered(comps, v);
    SharedIffConnected(d, comps, u, v);
  }

  lemma TwoComponents(d: Damage, comps: seq<seq<string>>)
    requires Partition(d, comps) && |comps| > 1
    ensures !AllConnected(d)
  {
    var a, b := comps[0], comps[1];
    assert a in comps && b in comps;
    assert d.Alive(a[0]) && d.Alive(b[0]);
    if d.Connected(a[0], b[0]) {
      Reroot(d, a[0], a, b[0]);
      ShareNode(d, a, b, b[0]);
      assert false;
    }
  }

  /** Every surviving node is in one listed component and no other. */
  ghost predicate CoversOnce(d: Damage, comps: seq<seq<string>>) {
    && (forall i, v | 0 <= i < |comps| && v in comps[i] :: d.Alive(v))
    && (forall u {:trigger Covered(comps, u)} | d.Alive(u) :: Covered(comps, u))
    && (forall i, j, v | 0 <= i < j < |comps| && v in comps[i] :: v !in comps[j])
  }

  lemma PartitionCoversOnce(d: Damage, comps: seq<seq<string>>)
    requires Partition(d, comps)
    ensures CoversOnce(d, comps)
  {
    forall i, v | 0 <= i < |comps| && v in comps[i] ensures d.Alive(v) {
      assert comps[i] in comps && IsComponent(d, comps[i]);
    }
    forall i, j, v | 0 <= i < j < |comps| && v in comps[i] ensures v !in comps[j] {
      assert comps[i] in comps && comps[j] in comps && comps[i] != comps[j];
      if v in comps[j] {
        ShareNode(d, comps[i], comps[j], v);
        assert false;
      }
    }
  }

  /** Larger components first, ties by least id; each lists its nodes once and in order. */
  ghost predicate LargestFirst(comps: seq<seq<string>>) {
    && (forall i | 0 <= i < |comps| :: comps[i] != [] && Distinct(comps[i]) && Sorted(StrLess, comps[i]))
    && (forall i, j | 0 <= i < j < |comps| ::
          |comps[i]| > |comps[j]| || (|comps[i]| == |comps[j]| && StrLess(comps[i][0], comps[j][0])))
  }

  lemma PartitionLargestFirst(d: Damage, comps: seq<seq<string>>)
    requires Partition(d, comps)
    ensures LargestFirst(comps)
  {
    ComponentsOrdered(d, Elements(comps));
    forall i, j | 0 <= i < j < |comps| ensures ComponentLess(comps[i], comps[j]) {
      assert comps[i] in Elements(comps) && comps[j] in Elements(comps);
      assert comps[i] != comps[j] && !ComponentLess(comps[j], comps[i]);
    }
    forall i | 0 <= i < |comps| ensures comps[i] != [] && Distinct(comps[i]) && Sorted(StrLess, comps[i]) {
      assert comps[i] in comps;
    }
  }

  /** The components of a report: none while all surviving nodes are connected; otherwise every surviving
      node is in exactly one of them, two nodes share one exactly when they are connected, and the largest
      comes first. */
  lemma ReportComponents(d: Damage, prefixes: seq<Prefix>, r: Report)
    requires IsImpact(d, prefixes, r)
    ensures r.revision == d.g.revision
    ensures AllConnected(d) <==> r.components == []
    ensures !AllConnected(d) ==> CoversOnce(d, r.components) && LargestFirst(r.components)
    ensures !AllConnected(d) ==> forall u, v | d.Alive(u) && d.Alive(v) ::
              (exists c :: c in r.components && u in c && v in c) <==> d.Connected(u, v)
  {
    var comps :| Partition(d, comps) && r == ReportOf(d, prefixes, comps);
    if |comps| <= 1 {
      forall u, v | d.Alive(u) && d.Alive(v) ensures d.Connected(u, v) { OnlyComponent(d, comps, u, v); }
    } else {
      TwoComponents(d, comps);
      PartitionCoversOnce(d, comps);
      PartitionLargestFirst(d, comps);
      forall u, v | d.Alive(u) && d.Alive(v)
        ensures (exists c :: c in comps && u in c && v in c) <==> d.Connected(u, v)
      {
        SharedIffConnected(d, comps, u, v);
      }
    }
  }

  /** What a report calls unreachable: exactly the surviving nodes outside its first component, and the
      prefixes whose origin failed or is such a node. */
  lemma ReportUnreachable(d: Damage, prefixes: seq<Prefix>, r: Report, v: string, x: string)
    requires IsImpact(d, prefixes, r)
    ensures v in r.unreachableNodes <==> d.Alive(v) && r.components != [] && v !in r.components[0]
    ensures x in r.unreachablePrefixes <==>
            exists p :: p in prefixes && p.meta.id == x
                        && (p.originNodeId in d.nodes || p.originNodeId in r.unreachableNodes)
    ensures Distinct(r.unreachableNodes) && Sorted(StrLess, r.unreachableNodes)
    ensures Sorted(StrLess, r.unreachablePrefixes)
  {
    var comps :| Partition(d, comps) && r == ReportOf(d, prefixes, comps);
    ImpactMeaning(d, prefixes, r, comps);
    if |comps| > 1 {
      assert comps[0] in comps && IsClass(d, HubOf(comps), comps[0]);
    } else if comps != [] && d.Alive(v) {
      assert comps[0] in comps;
      OnlyComponent(d, comps, HubOf(comps), v);
    }
  }

  lemma {:induction false} LostIdsDistinct(prefixes: seq<Prefix>, d: Damage, unreachable: seq<string>)
    requires forall i, j | 0 <= i < j < |prefixes| :: prefixes[i].meta.id != prefixes[j].meta.id
    ensures Distinct(LostIds(prefixes, d, unreachable))
  {
    if prefixes != [] {
      var front, p := prefixes[..|prefixes| - 1], prefixes[|prefixes| - 1];
      LostIdsDistinct(front, d, unreachable);
      LostIdsMembers(front, d, unreachable);
      forall i | 0 <= i < |LostIds(front, d, unreachable)| ensures LostIds(front, d, unreachable)[i] != p.meta.id {
        assert LostIds(front, d, unreachable)[i] in LostIds(front, d, unreachable);
        var x :| x in front && x.meta.id == LostIds(front, d, unreachable)[i];
      }
    }
  }

  /** Prefixes with distinct ids are reported once each. */
  lemma PrefixesReportedOnce(d: Damage, prefixes: seq<Prefix>, r: Report)
    requires IsImpact(d, prefixes, r)
    requires forall i, j | 0 <= i < j < |prefixes| :: prefixes[i].meta.id != prefixes[j].meta.id
    ensures Distinct(r.unreachablePrefixes)
  {
    var comps :| Partition(d, comps) && r == ReportOf(d, prefixes, comps);
    LostIdsDistinct(prefixes, d, Outside(comps));
    SortedListing(LostIds(prefixes, d, Outside(comps)));
    DistinctCounts(LostIds(prefixes, d, Outside(comps)));
    DistinctCounts(r.unreachablePrefixes);
  }
}
