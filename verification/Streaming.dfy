/** Streaming a snapshot in bounded messages (internal/api/topology.go:286-323). */
module Streaming {
  import opened Entities
  import opened Paging

  const CHUNK: nat := 500

  datatype Message = Message(domains: seq<Domain>, nodes: seq<Node>, links: seq<Link>, prefixes: seq<Prefix>,
                             last: bool)
  {
    function Count(): nat { |nodes| + |links| + |prefixes| }
  }

  /** The entities of a snapshot, as it lists them. */
  datatype Listing = Listing(domains: seq<Domain>, nodes: seq<Node>, links: seq<Link>, prefixes: seq<Prefix>)

  datatype Matcher = Matcher(node: Node -> bool, link: Link -> bool, prefix: Prefix -> bool)

  /** Takes matching items from a cursor on until the room is used up or the list ends. */
  method Fill<T>(items: seq<T>, start: nat, keep: T -> bool, room: nat) returns (taken: seq<T>, i: nat)
    requires start <= |items|
    ensures start <= i <= |items| && taken == Filter(items[start..i], keep) && |taken| <= room
    ensures i == |items| || |taken| == room
    ensures start < |items| && room > 0 ==> start < i
  {
    taken, i := [], start;
    while |taken| < room && i < |items|
      invariant start <= i <= |items| && taken == Filter(items[start..i], keep) && |taken| <= room
      invariant |taken| > 0 ==> start < i
    {
      assert items[start..i + 1] == items[start..i] + [items[i]];
      FilterConcat(items[start..i], [items[i]], keep);
      assert Filter([items[i]], keep) == if keep(items[i]) then [items[i]] else [] by {
        assert [items[i]][1..] == [];
      }
      if keep(items[i]) { taken := taken + [items[i]]; }
      i := i + 1;
    }
  }

  /** The three cursors. */
  datatype Cursor = Cursor(ni: nat, li: nat, pi: nat)

  predicate Within(snap: Listing, c: Cursor) {
    c.ni <= |snap.nodes| && c.li <= |snap.links| && c.pi <= |snap.prefixes|
  }

  predicate AtEnd(snap: Listing, c: Cursor) {
    c.ni == |snap.nodes| && c.li == |snap.links| && c.pi == |snap.prefixes|
  }

  /** Fills one message (topology.go:294-317). */
  method NextMessage(snap: Listing, m: Matcher, first: bool, c: Cursor) returns (msg: Message, c': Cursor)
    requires Within(snap, c)
    ensures Within(snap, c') && c.ni <= c'.ni && c.li <= c'.li && c.pi <= c'.pi
    ensures msg.domains == if first then snap.domains else []
    ensures msg.nodes == Filter(snap.nodes[c.ni..c'.ni], m.node)
    ensures msg.links == Filter(snap.links[c.li..c'.li], m.link)
    ensures msg.prefixes == Filter(snap.prefixes[c.pi..c'.pi], m.prefix)
    ensures msg.last <==> AtEnd(snap, c')
    ensures msg.Count() <= CHUNK && (msg.last || msg.Count() == CHUNK)
    ensures !AtEnd(snap, c) ==> c' != c
  {
    var nodes, ni := Fill(snap.nodes, c.ni, m.node, CHUNK);
    var links, li := Fill(snap.links, c.li, m.link, CHUNK - |nodes|);
    var prefixes, pi := Fill(snap.prefixes, c.pi, m.prefix, CHUNK - |nodes| - |links|);
    c' := Cursor(ni, li, pi);
    msg := Message(if first then snap.domains else [], nodes, links, prefixes,
                   ni == |snap.nodes| && li == |snap.links| && pi == |snap.prefixes|);
  }

  function NodesIn(msgs: seq<Message>): seq<Node> {
    if msgs == [] then [] else NodesIn(msgs[..|msgs| - 1]) + msgs[|msgs| - 1].nodes
  }

  function LinksIn(msgs: seq<Message>): seq<Link> {
    if msgs == [] then [] else LinksIn(msgs[..|msgs| - 1]) + msgs[|msgs| - 1].links
  }

  function PrefixesIn(msgs: seq<Message>): seq<Prefix> {
    if msgs == [] then [] else PrefixesIn(msgs[..|msgs| - 1]) + msgs[|msgs| - 1].prefixes
  }

  /** The messages sent so far carry exactly what matches up to the cursors. */
  ghost predicate Carries(msgs: seq<Message>, snap: Listing, m: Matcher, c: Cursor)
    requires Within(snap, c)
  {
    && NodesIn(msgs) == Filter(snap.nodes[..c.ni], m.node)
    && LinksIn(msgs) == Filter(snap.links[..c.li], m.link)
    && PrefixesIn(msgs) == Filter(snap.prefixes[..c.pi], m.prefix)
  }

  /** Every message but the last carries 500 entities and the last at most 500; only the last says so;
      only the first lists domains. */
  ghost predicate Shaped(msgs: seq<Message>, snap: Listing, ended: bool) {
    && (forall i | 0 <= i < |msgs| :: |msgs[i].nodes| + |msgs[i].links| + |msgs[i].prefixes| <= 500)
    && (forall i | 0 <= i < |msgs| :: (msgs[i].last <==> ended && i == |msgs| - 1))
    && (forall i | 0 <= i < |msgs| && !msgs[i].last ::
          |msgs[i].nodes| + |msgs[i].links| + |msgs[i].prefixes| == 500)
    && (forall i | 0 <= i < |msgs| :: msgs[i].domains == if i == 0 then snap.domains else [])
  }

  lemma SliceFilter<T>(items: seq<T>, keep: T -> bool, i: nat, j: nat)
    requires i <= j <= |items|
    ensures Filter(items[..j], keep) == Filter(items[..i], keep) + Filter(items[i..j], keep)
  {
    assert items[..j] == items[..i] + items[i..j];
    FilterConcat(items[..i], items[i..j], keep);
  }

  lemma CarriesMore(msgs: seq<Message>, snap: Listing, m: Matcher, c: Cursor, msg: Message, c': Cursor)
    requires Within(snap, c) && Within(snap, c') && Carries(msgs, snap, m, c)
    requires c.ni <= c'.ni && c.li <= c'.li && c.pi <= c'.pi
    requires msg.nodes == Filter(snap.nodes[c.ni..c'.ni], m.node)
    requires msg.links == Filter(snap.links[c.li..c'.li], m.link)
    requires msg.prefixes == Filter(snap.prefixes[c.pi..c'.pi], m.prefix)
    ensures Carries(msgs + [msg], snap, m, c')
  {
    assert (msgs + [msg])[..|msgs|] == msgs;
    SliceFilter(snap.nodes, m.node, c.ni, c'.ni);
    SliceFilter(snap.links, m.link, c.li, c'.li);
    SliceFilter(snap.prefixes, m.prefix, c.pi, c'.pi);
  }

  lemma ShapedMore(msgs: seq<Message>, snap: Listing, msg: Message)
    requires Shaped(msgs, snap, false)
    requires msg.Count() <= CHUNK && (msg.last || msg.Count() == CHUNK)
    requires msg.domains == if msgs == [] then snap.domains else []
    ensures Shaped(msgs + [msg], snap, msg.last)
  {
  }

  /** StreamSnapshot: the messages add up to exactly the matching nodes, links and prefixes, in
      order. */
  method StreamSnapshot(snap: Listing, m: Matcher) returns (msgs: seq<Message>)
    ensures NodesIn(msgs) == Filter(snap.nodes, m.node)
    ensures LinksIn(msgs) == Filter(snap.links, m.link)
    ensures PrefixesIn(msgs) == Filter(snap.prefixes, m.prefix)
    ensures msgs != [] && Shaped(msgs, snap, true)
  {
    msgs := [];
    var c := Cursor(0, 0, 0);
    while !AtEnd(snap, c) || msgs == []
      invariant Within(snap, c) && Carries(msgs, snap, m, c)
      invariant Shaped(msgs, snap, msgs != [] && AtEnd(snap, c))
      decreases (|snap.nodes| - c.ni) + (|snap.links| - c.li) + (|snap.prefixes| - c.pi) + if msgs == [] then 1 else 0
    {
      var msg, c' := NextMessage(snap, m, msgs == [], c);
      CarriesMore(msgs, snap, m, c, msg, c');
      ShapedMore(msgs, snap, msg);
      msgs, c := msgs + [msg], c';
    }
    assert snap.nodes[..c.ni] == snap.nodes && snap.links[..c.li] == snap.links;
    assert snap.prefixes[..c.pi] == snap.prefixes;
  }
}
