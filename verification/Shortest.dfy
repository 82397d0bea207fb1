/** The constrained shortest-path search (internal/topology/graph.go:135-189). */
module Shortest {
  import opened Entities
  import opened Orders
  import opened Graphs

  datatype Item = Item(id: string, cost: uint64)

  /** The heap order: by cost, then by node id. */
  predicate ItemLess(a: Item, b: Item) {
    if a.cost == b.cost then StrLess(a.id, b.id) else a.cost < b.cost
  }

  lemma ItemAtMostTrans(a: Item, b: Item, c: Item)
    requires !ItemLess(b, a) && !ItemLess(c, b)
    ensures !ItemLess(c, a)
  {
    if a.cost == b.cost == c.cost {
      StrAtMostTrans(a.id, b.id, c.id);
    }
  }

  /** heap.Pop: removes an item that no other item precedes. */
  method PopLeast(queue: seq<Item>) returns (item: Item, rest: seq<Item>)
    requires queue != []
    ensures item in queue
    ensures multiset(queue) == multiset(rest) + multiset{item} && |rest| == |queue| - 1
    ensures forall it | it in queue :: !ItemLess(it, item)
  {
    var k := 0;
    StrIrreflexive(queue[0].id);
    for i := 1 to |queue|
      invariant 0 <= k < |queue|
      invariant forall j | 0 <= j < i :: !ItemLess(queue[j], queue[k])
    {
      if ItemLess(queue[i], queue[k]) {
        forall j | 0 <= j < i ensures !ItemLess(queue[j], queue[i]) {
          if queue[i].cost == queue[k].cost { StrLessAsym(queue[i].id, queue[k].id); }
          ItemAtMostTrans(queue[i], queue[k], queue[j]);
        }
        StrIrreflexive(queue[i].id);
        k := i;
      }
    }
    item, rest := queue[k], queue[..k] + queue[k + 1..];
    assert queue == queue[..k] + [queue[k]] + queue[k + 1..];
  }

  // ---------------------------------------------------------------- what the search keeps

  /** What has been found so far: tentative distances, the link each node was reached by, and the
      nodes already expanded. */
  datatype Found = Found(dist: map<string, uint64>, prev: map<string, Link>, done: set<string>)

  /** Node n was reached from an expanded node by its recorded link, at its recorded distance. */
  ghost predicate Arrives(q: Query, f: Found, n: string) {
    && n in f.prev && n in f.dist
    && q.Usable(f.prev[n]) && f.prev[n].remoteNodeId == n
    && f.prev[n].localNodeId in f.done && f.prev[n].localNodeId in f.dist
    && f.dist[n] == f.dist[f.prev[n].localNodeId] + q.Weight(f.prev[n])
  }

  ghost predicate Sound(q: Query, source: string, f: Found) {
    && source in f.dist && f.dist[source] == 0
    && f.done <= f.dist.Keys
    && f.prev.Keys == f.dist.Keys - {source}
    && forall n | n in f.dist && n != source :: Arrives(q, f, n)
  }

  /** Link l can improve neither the distance of its head nor, at the same distance, the link id. */
  ghost predicate Relaxed(q: Query, f: Found, l: Link)
    requires l.localNodeId in f.dist
  {
    var d := f.dist[l.localNodeId] + q.Weight(l);
    var v := l.remoteNodeId;
    d <= MAX_U64 ==>
      && v in f.dist && f.dist[v] <= d
      && (f.dist[v] == d ==> v in f.prev && StrAtMost(f.prev[v].Id(), l.Id()))
  }

  ghost predicate Settled(q: Query, f: Found)
    requires f.done <= f.dist.Keys
  {
    forall l | q.Usable(l) && l.localNodeId in f.done :: Relaxed(q, f, l)
  }

  /** The queue holds every reached node that is not expanded, and nothing cheaper than an
      expanded one. */
  ghost predicate Frontier(f: Found, queue: seq<Item>)
    requires f.done <= f.dist.Keys
  {
    && (forall n | n in f.dist && n !in f.done :: Item(n, f.dist[n]) in queue)
    && (forall it | it in queue :: it.id in f.dist && f.dist[it.id] <= it.cost)
    && (forall it, n | it in queue && n in f.done :: f.dist[n] <= it.cost)
  }

  ghost predicate Below(f: Found, cost: int)
    requires f.done <= f.dist.Keys
  {
    forall n | n in f.done :: f.dist[n] <= cost
  }

  ghost predicate Improves(q: Query, f: Found, l: Link, next: uint64) {
    var v := l.remoteNodeId;
    v in f.dist ==> next < f.dist[v] || (next == f.dist[v] && v in f.prev && StrLess(l.Id(), f.prev[v].Id()))
  }

  function Update(f: Found, l: Link, next: uint64): Found {
    Found(f.dist[l.remoteNodeId := next], f.prev[l.remoteNodeId := l], f.done)
  }

  lemma ImprovedNotDone(q: Query, source: string, f: Found, l: Link, next: uint64)
    requires Sound(q, source, f)
    requires Below(f, next - 1)
    requires next >= 1 && Improves(q, f, l, next)
    ensures l.remoteNodeId !in f.done && l.remoteNodeId != source
  {
  }

  lemma UpdateSound(q: Query, source: string, f: Found, l: Link, next: uint64)
    requires Sound(q, source, f)
    requires q.Usable(l) && l.localNodeId in f.done && next == f.dist[l.localNodeId] + q.Weight(l)
    requires l.remoteNodeId !in f.done && l.remoteNodeId != source
    ensures Sound(q, source, Update(f, l, next))
  {
    var f' := Update(f, l, next);
    forall n | n in f'.dist && n != source ensures Arrives(q, f', n) {
      if n != l.remoteNodeId {
        assert Arrives(q, f, n);
      }
    }
  }

  lemma UpdateRelaxed(q: Query, source: string, f: Found, l: Link, next: uint64, k: Link)
    requires Sound(q, source, f) && Improves(q, f, l, next)
    requires l.remoteNodeId !in f.done
    requires k.localNodeId in f.done && Relaxed(q, f, k)
    ensures Relaxed(q, Update(f, l, next), k)
  {
    if k.remoteNodeId == l.remoteNodeId && k.remoteNodeId in f.prev {
      if StrLess(l.Id(), f.prev[k.remoteNodeId].Id()) && StrLess(k.Id(), l.Id()) {
        StrLessTrans(k.Id(), l.Id(), f.prev[k.remoteNodeId].Id());
      }
    }
  }

  lemma UpdateFrontier(f: Found, queue: seq<Item>, l: Link, next: uint64)
    requires f.done <= f.dist.Keys
    requires Frontier(f, queue) && Below(f, next)
    requires l.remoteNodeId !in f.done && (l.remoteNodeId in f.dist ==> next <= f.dist[l.remoteNodeId])
    ensures Frontier(Update(f, l, next), queue + [Item(l.remoteNodeId, next)])
  {
    var f', queue' := Update(f, l, next), queue + [Item(l.remoteNodeId, next)];
    forall n | n in f'.dist && n !in f'.done ensures Item(n, f'.dist[n]) in queue' {
      assert queue'[|queue|] == Item(l.remoteNodeId, next);
      if n != l.remoteNodeId {
        assert Item(n, f.dist[n]) in queue;
      }
    }
    forall it | it in queue' ensures it.id in f'.dist && f'.dist[it.id] <= it.cost {
      if it !in queue { assert it == Item(l.remoteNodeId, next); }
    }
    forall it, n | it in queue' && n in f'.done ensures f'.dist[n] <= it.cost {
      if it !in queue { assert it == Item(l.remoteNodeId, next); }
    }
  }

  /** The states of a node not used up yet; every push uses one, which bounds the search. */
  type Spare = set<(string, int, string)>

  ghost predicate SpareCovers(g: Graph, f: Found, spare: Spare) {
    forall n, d, k {:trigger (n, d, k) in spare} | n in g.nodes && 0 <= d <= MAX_U64 && k in LinkIds(g)
                   && (n in f.dist ==> d < f.dist[n] || (d == f.dist[n] && n in f.prev && StrLess(k, f.prev[n].Id())))
      :: (n, d, k) in spare
  }

  ghost function LinkIds(g: Graph): set<string> {
    set u, i | u in g.adj && 0 <= i < |g.adj[u]| :: g.adj[u][i].Id()
  }

  ghost function AllSpare(g: Graph): (s: Spare) {
    set n, d, k | n in g.nodes && 0 <= d <= MAX_U64 && k in LinkIds(g) :: (n, d, k)
  }

  lemma LinkIdListed(g: Graph, l: Link)
    requires HasLink(g, l)
    ensures l.Id() in LinkIds(g)
  {
    var i :| 0 <= i < |g.adj[l.localNodeId]| && g.adj[l.localNodeId][i] == l;
  }

  lemma SpendSpare(q: Query, f: Found, spare: Spare, l: Link, next: uint64)
    requires WellFormed(q.g) && SpareCovers(q.g, f, spare)
    requires HasLink(q.g, l) && Improves(q, f, l, next)
    ensures (l.remoteNodeId, next as int, l.Id()) in spare
    ensures SpareCovers(q.g, Update(f, l, next), spare - {(l.remoteNodeId, next as int, l.Id())})
  {
    LinkIdListed(q.g, l);
    var f', spare' := Update(f, l, next), spare - {(l.remoteNodeId, next as int, l.Id())};
    forall n, d, k {:trigger (n, d, k) in spare'} | n in q.g.nodes && 0 <= d <= MAX_U64 && k in LinkIds(q.g)
                     && (n in f'.dist ==>
                           d < f'.dist[n] || (d == f'.dist[n] && n in f'.prev && StrLess(k, f'.prev[n].Id())))
      ensures (n, d, k) in spare'
    {
      if n == l.remoteNodeId && d == next {
        StrLessAsym(k, l.Id());
        if n in f.prev && StrLess(l.Id(), f.prev[n].Id()) { StrLessTrans(k, l.Id(), f.prev[n].Id()); }
      }
      assert (n, d, k) in spare;
    }
  }

  // ---------------------------------------------------------------- the search

  /** Everything the search keeps between two queue removals. */
  ghost predicate Searching(q: Query, source: string, f: Found, queue: seq<Item>) {
    Sound(q, source, f) && Settled(q, f) && Frontier(f, queue)
  }

  /** As Searching, while node u is being expanded at its final cost: the links in `todo` are not
      relaxed yet. */
  ghost predicate Expanding(q: Query, source: string, f: Found, queue: seq<Item>, u: string, todo: seq<Link>) {
    && Sound(q, source, f) && Frontier(f, queue)
    && u in f.done && Below(f, f.dist[u])
    && forall l | q.Usable(l) && l.localNodeId in f.done && (l.localNodeId == u ==> l !in todo) :: Relaxed(q, f, l)
  }

  lemma WithoutItem(queue: seq<Item>, item: Item, rest: seq<Item>)
    requires multiset(queue) == multiset(rest) + multiset{item}
    ensures forall it | it in rest :: it in queue
    ensures forall it | it in queue && it != item :: it in rest
  {
    forall it | it in rest ensures it in queue {
      assert it in multiset(queue);
    }
    forall it | it in queue && it != item ensures it in rest {
      assert it in multiset(queue);
    }
  }

  lemma PopFrontier(f: Found, queue: seq<Item>, item: Item, rest: seq<Item>)
    requires f.done <= f.dist.Keys && Frontier(f, queue)
    requires item in queue && f.dist[item.id] == item.cost
    requires multiset(queue) == multiset(rest) + multiset{item}
    requires forall it | it in queue :: !ItemLess(it, item)
    ensures Frontier(f.(done := f.done + {item.id}), rest)
    ensures Below(f.(done := f.done + {item.id}), item.cost)
  {
    WithoutItem(queue, item, rest);
  }

  /** Taking a least item with a current cost starts the expansion of its node. */
  lemma StartExpanding(q: Query, source: string, f: Found, queue: seq<Item>, item: Item, rest: seq<Item>)
    requires Searching(q, source, f, queue)
    requires item in queue && f.dist[item.id] == item.cost
    requires multiset(queue) == multiset(rest) + multiset{item}
    requires forall it | it in queue :: !ItemLess(it, item)
    ensures Expanding(q, source, f.(done := f.done + {item.id}), rest, item.id,
                      LinksFrom(q.g, item.id))
  {
    var f' := f.(done := f.done + {item.id});
    PopFrontier(f, queue, item, rest);
    forall n | n in f'.dist && n != source ensures Arrives(q, f', n) {
      assert Arrives(q, f, n);
    }
    forall l | q.Usable(l) && l.localNodeId in f'.done
               && (l.localNodeId == item.id ==> l !in LinksFrom(q.g, item.id))
      ensures Relaxed(q, f', l)
    {
      assert Relaxed(q, f, l);
    }
  }

  /** Dropping a stale item keeps everything. */
  lemma DropStale(q: Query, source: string, f: Found, queue: seq<Item>, item: Item, rest: seq<Item>)
    requires Searching(q, source, f, queue)
    requires item in queue && f.dist[item.id] != item.cost
    requires multiset(queue) == multiset(rest) + multiset{item}
    ensures Searching(q, source, f, rest)
  {
    WithoutItem(queue, item, rest);
  }

  /** A link that cannot be taken, or that improves nothing, needs no update. */
  lemma SkipLink(q: Query, source: string, f: Found, queue: seq<Item>, u: string, l: Link, todo: seq<Link>)
    requires Expanding(q, source, f, queue, u, [l] + todo)
    requires l.localNodeId == u && (q.Usable(l) ==> Relaxed(q, f, l))
    ensures Expanding(q, source, f, queue, u, todo)
  {
    forall k | q.Usable(k) && k.localNodeId in f.done && (k.localNodeId == u ==> k !in todo)
      ensures Relaxed(q, f, k)
    {
      if k != l { assert k !in [l] + todo || k.localNodeId != u; }
    }
  }

  lemma TakeLink(q: Query, source: string, f: Found, queue: seq<Item>, u: string, l: Link, todo: seq<Link>,
                 next: uint64)
    requires Expanding(q, source, f, queue, u, [l] + todo)
    requires l.localNodeId == u && q.Usable(l)
    requires next == f.dist[u] + q.Weight(l) && Improves(q, f, l, next)
    ensures Expanding(q, source, Update(f, l, next), queue + [Item(l.remoteNodeId, next)], u, todo)
  {
    ImprovedNotDone(q, source, f, l, next);
    UpdateSound(q, source, f, l, next);
    UpdateFrontier(f, queue, l, next);
    var f' := Update(f, l, next);
    forall k | q.Usable(k) && k.localNodeId in f'.done && (k.localNodeId == u ==> k !in todo)
      ensures Relaxed(q, f', k)
    {
      if k == l {
        StrIrreflexive(l.Id());
      } else {
        assert k.localNodeId != u || k !in [l] + todo;
        UpdateRelaxed(q, source, f, l, next, k);
      }
    }
  }

  /** Relaxes one link of the node being expanded (graph.go:152-168). */
  method RelaxLink(q: Query, ghost source: string, f: Found, queue: seq<Item>, item: Item, l: Link,
                   ghost todo: seq<Link>, ghost spare: Spare)
    returns (f': Found, queue': seq<Item>, ghost spare': Spare)
    requires WellFormed(q.g) && SpareCovers(q.g, f, spare)
    requires Expanding(q, source, f, queue, item.id, [l] + todo) && f.dist[item.id] == item.cost
    requires l.localNodeId == item.id && HasLink(q.g, l)
    ensures Expanding(q, source, f', queue', item.id, todo) && f'.dist[item.id] == item.cost
    ensures f'.done == f.done && SpareCovers(q.g, f', spare')
    ensures spare' < spare || (spare' == spare && queue' == queue)
  {
    f', queue', spare' := f, queue, spare;
    var ok := Eligible(l, q.c);
    var weight := Metric(l, q.metric);
    if !ok || weight.None? || item.cost > MAX_U64 - weight.value {
      SkipLink(q, source, f, queue, item.id, l, todo);
      return;
    }
    var next: uint64 := item.cost + weight.value;
    var v := l.remoteNodeId;
    // An absent predecessor reads as the empty id, which no id precedes.
    var prevId := if v in f.prev then f.prev[v].Id() else "";
    if v !in f.dist || next < f.dist[v] || (next == f.dist[v] && StrLess(l.Id(), prevId)) {
      TakeLink(q, source, f, queue, item.id, l, todo, next);
      SpendSpare(q, f, spare, l, next);
      f' := Update(f, l, next);
      queue' := queue + [Item(v, next)];
      spare' := spare - {(v, next as int, l.Id())};
    } else {
      SkipLink(q, source, f, queue, item.id, l, todo);
    }
  }

  /** Expands one node: relaxes each of its links in turn (graph.go:151-169). */
  method Expand(q: Query, ghost source: string, f: Found, queue: seq<Item>, item: Item, ghost spare: Spare)
    returns (f': Found, queue': seq<Item>, ghost spare': Spare)
    requires WellFormed(q.g) && SpareCovers(q.g, f, spare)
    requires Expanding(q, source, f, queue, item.id, LinksFrom(q.g, item.id))
    requires f.dist[item.id] == item.cost
    ensures Searching(q, source, f', queue') && f'.done == f.done && SpareCovers(q.g, f', spare')
    ensures spare' < spare || (spare' == spare && queue' == queue)
  {
    f', queue', spare' := f, queue, spare;
    var links := LinksFrom(q.g, item.id);
    for i := 0 to |links|
      invariant Expanding(q, source, f', queue', item.id, links[i..])
      invariant f'.dist[item.id] == item.cost && f'.done == f.done
      invariant SpareCovers(q.g, f', spare')
      invariant spare' < spare || (spare' == spare && queue' == queue)
    {
      assert links[i..] == [links[i]] + links[i + 1..];
      assert links[i] in links;
      f', queue', spare' := RelaxLink(q, source, f', queue', item, links[i], links[i + 1..], spare');
    }
  }

  /** What the search leaves behind. Every node closer than `bound` is expanded, and the distance
      of the destination, if it was reached, is the bound. */
  ghost predicate Explored(q: Query, source: string, destination: string, f: Found, bound: int) {
    && Sound(q, source, f) && Settled(q, f) && Below(f, bound)
    && (forall n | n in f.dist && n !in f.done :: bound <= f.dist[n])
    && destination !in f.done
    && (destination in f.dist ==> bound == f.dist[destination])
    && (destination !in f.dist ==> bound == MAX_U64 + 1)
  }

  ghost predicate Reached(q: Query, source: string, destination: string, f: Found) {
    exists bound :: Explored(q, source, destination, f, bound)
  }

  /** The main loop: it ends with every node closer than some bound at its final distance. */
  method Search(q: Query, source: string, destination: string) returns (f: Found)
    requires WellFormed(q.g) && source in q.g.nodes
    ensures Reached(q, source, destination, f)
  {
    f := Found(map[source := 0], map[], {});
    var queue := [Item(source, 0)];
    ghost var spare := AllSpare(q.g);
    while queue != []
      invariant Searching(q, source, f, queue) && destination !in f.done
      invariant SpareCovers(q.g, f, spare)
      decreases spare, |queue|
    {
      var item, rest := PopLeast(queue);
      if f.dist[item.id] != item.cost {
        DropStale(q, source, f, queue, item, rest);
        queue := rest;
        continue;
      }
      if item.id == destination {
        assert Explored(q, source, destination, f, item.cost);
        return;
      }
      StartExpanding(q, source, f, queue, item, rest);
      f := f.(done := f.done + {item.id});
      f, queue, spare := Expand(q, source, f, rest, item, spare);
    }
    assert Explored(q, source, destination, f, MAX_U64 + 1);
  }

  // ---------------------------------------------------------------- optimality

  /** No chain undercuts the search: it ends at an expanded node no cheaper than recorded, or it
      costs at least the bound. */
  lemma {:induction false} NoneCheaper(q: Query, source: string, destination: string, f: Found, bound: int,
                                       p: seq<Link>, v: string)
    requires Explored(q, source, destination, f, bound)
    requires IsChain(q, p, source, v)
    ensures (v in f.done && f.dist[v] <= Cost(q, p)) || bound <= Cost(q, p)
    decreases |p|
  {
    if p != [] {
      var l := Last(p);
      NoneCheaper(q, source, destination, f, bound, Front(p), l.localNodeId);
      if l.localNodeId in f.done {
        assert Relaxed(q, f, l);
        assert bound <= MAX_U64 + 1;
      }
    }
  }

  /** The nodes whose distance is final. */
  ghost predicate Final(f: Found, destination: string, v: string) {
    v in f.dist && (v in f.done || v == destination)
  }

  /** The chain that the predecessor links spell out, back to the source. */
  ghost function PathTo(q: Query, source: string, f: Found, v: string): (p: seq<Link>)
    requires Sound(q, source, f) && v in f.dist
    decreases f.dist[v]
  {
    if v == source then []
    else
      assert Arrives(q, f, v);
      PathTo(q, source, f, f.prev[v].localNodeId) + [f.prev[v]]
  }

  lemma {:induction false} PathToIsChain(q: Query, source: string, f: Found, v: string)
    requires Sound(q, source, f) && v in f.dist
    ensures IsChain(q, PathTo(q, source, f, v), source, v)
    ensures Cost(q, PathTo(q, source, f, v)) == f.dist[v]
    decreases f.dist[v]
  {
    if v != source {
      assert Arrives(q, f, v);
      PathToIsChain(q, source, f, f.prev[v].localNodeId);
      ChainSnoc(q, PathTo(q, source, f, f.prev[v].localNodeId), f.prev[v], source);
    }
  }

  lemma PathToIsShortest(q: Query, source: string, destination: string, f: Found, bound: int, v: string)
    requires Explored(q, source, destination, f, bound) && Final(f, destination, v)
    ensures IsShortest(q, PathTo(q, source, f, v), source, v)
  {
    PathToIsChain(q, source, f, v);
    forall p | IsChain(q, p, source, v) ensures f.dist[v] <= Cost(q, p) {
      NoneCheaper(q, source, destination, f, bound, p, v);
    }
  }

  /** The last link of any shortest chain to v has an id no smaller than the recorded one. */
  lemma PrevIsLeast(q: Query, source: string, destination: string, f: Found, bound: int, v: string, p: seq<Link>)
    requires Explored(q, source, destination, f, bound) && Final(f, destination, v)
    requires p != [] && IsShortest(q, p, source, v)
    ensures v in f.prev && StrAtMost(f.prev[v].Id(), Last(p).Id())
  {
    PathToIsChain(q, source, f, v);
    var l := Last(p);
    assert Cost(q, p) <= f.dist[v] <= bound;
    NoneCheaper(q, source, destination, f, bound, Front(p), l.localNodeId);
    assert Relaxed(q, f, l);
    PathToIsShortest(q, source, destination, f, bound, v);
  }

  lemma {:induction false} PathToIsCanonical(q: Query, source: string, destination: string, f: Found, bound: int,
                                             v: string)
    requires Explored(q, source, destination, f, bound) && Final(f, destination, v)
    ensures IsCanonical(q, PathTo(q, source, f, v), source, v)
    decreases f.dist[v]
  {
    PathToIsShortest(q, source, destination, f, bound, v);
    if v != source {
      assert Arrives(q, f, v);
      var l := f.prev[v];
      var p := PathTo(q, source, f, v);
      assert Last(p) == l && Front(p) == PathTo(q, source, f, l.localNodeId);
      PathToIsCanonical(q, source, destination, f, bound, l.localNodeId);
      forall p' | p' != [] && IsShortest(q, p', source, v) ensures StrAtMost(l.Id(), Last(p').Id()) {
        PrevIsLeast(q, source, destination, f, bound, v, p');
      }
    }
  }

  // ---------------------------------------------------------------- the query

  datatype PathResult = Path(links: seq<Link>, total: uint64) | NoPath

  ghost predicate WithinRange(q: Query, p: seq<Link>, u: string, v: string) {
    IsChain(q, p, u, v) && Cost(q, p) <= MAX_U64
  }

  function Reversed<T>(s: seq<T>): (r: seq<T>)
    ensures |r| == |s| && forall i | 0 <= i < |s| :: r[i] == s[|s| - 1 - i]
  {
    if s == [] then [] else Reversed(s[1..]) + [s[0]]
  }

  lemma ReversedSnoc<T>(s: seq<T>, x: T)
    ensures Reversed(s + [x]) == [x] + Reversed(s)
  {
  }

  /** Walks the predecessor links from the destination back to the source (graph.go:175-187). */
  method WalkBack(q: Query, source: string, destination: string, f: Found) returns (path: Option<seq<Link>>)
    requires Sound(q, source, f) && destination in f.dist
    ensures path == Some(PathTo(q, source, f, destination))
  {
    var reversed: seq<Link> := [];
    var current := destination;
    while current != source
      invariant current in f.dist
      invariant PathTo(q, source, f, current) + Reversed(reversed) == PathTo(q, source, f, destination)
      decreases f.dist[current]
    {
      assert Arrives(q, f, current);
      if current !in f.prev { return None; }
      var link := f.prev[current];
      ReversedSnoc(reversed, link);
      assert PathTo(q, source, f, current) == PathTo(q, source, f, link.localNodeId) + [link];
      reversed := reversed + [link];
      current := link.localNodeId;
    }
    assert [] + Reversed(reversed) == Reversed(reversed);
    path := Some(Reversed(reversed));
  }

  /** The constrained shortest path: whenever some chain of usable links fits in 64 bits, the
      canonical cheapest one with its exact cost; otherwise no path. */
  method ShortestPath(q: Query, source: string, destination: string) returns (r: PathResult)
    requires WellFormed(q.g)
    ensures r.Path? ==> IsCanonical(q, r.links, source, destination) && r.total == Cost(q, r.links)
    ensures r.Path? ==> source in q.g.nodes && destination in q.g.nodes
    ensures r.NoPath? <==> source !in q.g.nodes || destination !in q.g.nodes
                           || forall p :: !WithinRange(q, p, source, destination)
  {
    if source !in q.g.nodes || destination !in q.g.nodes { return NoPath; }
    var f := Search(q, source, destination);
    ghost var bound :| Explored(q, source, destination, f, bound);
    if destination !in f.dist {
      forall p ensures !WithinRange(q, p, source, destination) {
        if IsChain(q, p, source, destination) {
          NoneCheaper(q, source, destination, f, bound, p, destination);
        }
      }
      return NoPath;
    }
    var path := WalkBack(q, source, destination, f);
    PathToIsCanonical(q, source, destination, f, bound, destination);
    PathToIsChain(q, source, f, destination);
    assert WithinRange(q, path.value, source, destination);
    r := Path(path.value, f.dist[destination]);
  }

  // ---------------------------------------------------------------- simple chains

  /** The nodes a chain from u visits, in order. */
  function NodesOf(u: string, p: seq<Link>): (r: seq<string>)
    ensures |r| == |p| + 1 && r[0] == u
    ensures forall i | 0 <= i < |p| :: r[i + 1] == p[i].remoteNodeId
  {
    if p == [] then [u] else NodesOf(u, Front(p)) + [Last(p).remoteNodeId]
  }

  lemma {:induction false} PrefixIsChain(q: Query, p: seq<Link>, u: string, v: string, k: nat)
    requires IsChain(q, p, u, v) && k <= |p|
    ensures IsChain(q, p[..k], u, NodesOf(u, p)[k])
    ensures k < |p| ==> p[k].localNodeId == NodesOf(u, p)[k] && q.Usable(p[k])
    decreases |p|
  {
    if k == |p| {
      assert p[..k] == p;
    } else {
      if k < |p| - 1 {
        PrefixIsChain(q, Front(p), u, Last(p).localNodeId, k);
        assert Front(p)[..k] == p[..k] && Front(p)[k] == p[k];
      } else {
        PrefixIsChain(q, Front(p), u, Last(p).localNodeId, k);
        assert Front(p)[..k] == p[..k] == Front(p);
      }
    }
  }

  lemma {:induction false} PrefixCheaper(q: Query, p: seq<Link>, u: string, v: string, i: nat, j: nat)
    requires IsChain(q, p, u, v) && i < j <= |p|
    ensures Cost(q, p[..i]) < Cost(q, p[..j])
    decreases j
  {
    PrefixIsChain(q, p, u, v, j - 1);
    assert Front(p[..j]) == p[..j - 1] && Last(p[..j]) == p[j - 1];
    if i < j - 1 { PrefixCheaper(q, p, u, v, i, j - 1); }
  }

  lemma SuffixIsChain(q: Query, p: seq<Link>, u: string, v: string, k: nat)
    requires IsChain(q, p, u, v) && k <= |p|
    ensures IsChain(q, p[k..], NodesOf(u, p)[k], v)
    decreases |p|
  {
    if k == |p| {
      PrefixIsChain(q, p, u, v, k);
      assert p == [] || NodesOf(u, p)[k] == Last(p).remoteNodeId;
    } else {
      SuffixIsChain(q, Front(p), u, Last(p).localNodeId, k);
      assert Front(p[k..]) == Front(p)[k..] && Last(p[k..]) == Last(p);
    }
  }

  /** A prefix of a shortest chain is shortest. */
  lemma PrefixIsShortest(q: Query, p: seq<Link>, u: string, v: string, k: nat)
    requires IsShortest(q, p, u, v) && k <= |p|
    ensures IsShortest(q, p[..k], u, NodesOf(u, p)[k])
  {
    PrefixIsChain(q, p, u, v, k);
    SuffixIsChain(q, p, u, v, k);
    assert p == p[..k] + p[k..];
    CostConcat(q, p[..k], p[k..]);
    forall p' | IsChain(q, p', u, NodesOf(u, p)[k]) ensures Cost(q, p[..k]) <= Cost(q, p') {
      ChainConcat(q, p', p[k..], u, NodesOf(u, p)[k], v);
      CostConcat(q, p', p[k..]);
    }
  }

  /** A shortest chain repeats no node. */
  lemma ShortestIsSimple(q: Query, p: seq<Link>, u: string, v: string, i: nat, j: nat)
    requires IsShortest(q, p, u, v) && i < j <= |p|
    ensures NodesOf(u, p)[i] != NodesOf(u, p)[j]
  {
    PrefixCheaper(q, p, u, v, i, j);
    PrefixIsChain(q, p, u, v, i);
    PrefixIsShortest(q, p, u, v, j);
  }
}
