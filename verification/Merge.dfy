/** Merging the advertisements of several peers into one canonical entity
    (internal/topology/reconcile.go:61-79, 83-182). */
module Merge {
  import opened Orders
  import opened Entities
  import opened Sorting
  import opened Keys
  import opened Journal

  // ---------------------------------------------------------------- one field

  /** A metric as conflicts print it, with zero as the empty text. */
  function MetricText(n: uint64): (s: string)
    ensures s == "" <==> n == 0
  {
    if n == 0 then "" else Decimal(n)
  }

  lemma MetricTextInjective(m: uint64, n: uint64)
    requires MetricText(m) == MetricText(n)
    ensures m == n
  {
    DecimalValue(m);
    DecimalValue(n);
  }

  /** The two peers of a merge: the selected one and the one merged in. */
  datatype Peers = Peers(selected: string, other: string)

  // mergeString and mergeUint64 fill an empty value with the other one, and otherwise record a
  // conflict when the other value is there and differs.

  function Filled(a: string, b: string): string {
    if a == "" then b else a
  }

  function FilledMetric(a: uint64, b: uint64): uint64 {
    if a == 0 then b else a
  }

  function Clash(field: string, selected: string, other: string, p: Peers): seq<Conflict> {
    if selected != "" && other != "" && selected != other
    then [Conflict(field, selected, p.selected, other, p.other)] else []
  }

  /** Metrics fill as their texts do. */
  lemma FilledMetricText(a: uint64, b: uint64)
    ensures MetricText(FilledMetric(a, b)) == Filled(MetricText(a), MetricText(b))
  {
  }

  /** Two metrics clash exactly when both are set and they differ. */
  lemma ClashOfMetrics(field: string, a: uint64, b: uint64, p: Peers)
    ensures Clash(field, MetricText(a), MetricText(b), p) ==
            if a != 0 && b != 0 && a != b then [Conflict(field, Decimal(a), p.selected, Decimal(b), p.other)] else []
  {
    if a != b && MetricText(a) == MetricText(b) { MetricTextInjective(a, b); }
  }

  // ---------------------------------------------------------------- TLVs

  function TlvKey(t: Tlv): string {
    t.registry + "/" + Decimal(t.tag) + "/" + t.value
  }

  lemma TlvKeyParts(t: Tlv)
    ensures TlvKey(t) == t.registry + "/" + (Decimal(t.tag) + "/" + t.value)
    ensures SlashFree(Decimal(t.tag))
  {
    assert TlvKey(t) == t.registry + "/" + (Decimal(t.tag) + "/" + t.value);
  }

  /** TLVs whose registries hold no slash share a key exactly when they agree in everything but the
      enterprise number. */
  lemma TlvKeyExact(a: Tlv, b: Tlv)
    requires SlashFree(a.registry) && SlashFree(b.registry)
    ensures TlvKey(a) == TlvKey(b) <==> a == b.(enterprise := a.enterprise)
  {
    TlvKeyParts(a);
    TlvKeyParts(b);
    if TlvKey(a) == TlvKey(b) {
      FirstSlash(a.registry, Decimal(a.tag) + "/" + a.value, b.registry, Decimal(b.tag) + "/" + b.value);
      FirstSlash(Decimal(a.tag), a.value, Decimal(b.tag), b.value);
      DecimalValue(a.tag);
      DecimalValue(b.tag);
    }
  }

  function TlvKeys(s: seq<Tlv>): set<string> {
    set t | t in s :: TlvKey(t)
  }

  /** The TLVs of `other` with keys not seen before, each key once, in order. */
  function FreshTlvs(other: seq<Tlv>, seen: set<string>): (r: seq<Tlv>)
    decreases |other|
  {
    if other == [] then []
    else if TlvKey(other[0]) in seen then FreshTlvs(other[1..], seen)
    else [other[0]] + FreshTlvs(other[1..], seen + {TlvKey(other[0])})
  }

  /** mergeTLVs. */
  method MergeTLVs(selected: seq<Tlv>, other: seq<Tlv>) returns (r: seq<Tlv>)
    ensures r == MergedTlvs(selected, other)
  {
    var seen: set<string> := {};
    for i := 0 to |selected|
      invariant seen == TlvKeys(selected[..i])
    {
      assert selected[..i + 1] == selected[..i] + [selected[i]];
      seen := seen + {TlvKey(selected[i])};
    }
    assert selected[..|selected|] == selected;
    r := selected;
    for i := 0 to |other|
      invariant r + FreshTlvs(other[i..], seen) == MergedTlvs(selected, other)
    {
      assert other[i..][1..] == other[i + 1..];
      if TlvKey(other[i]) !in seen {
        assert r + ([other[i]] + FreshTlvs(other[i + 1..], seen + {TlvKey(other[i])}))
            == r + [other[i]] + FreshTlvs(other[i + 1..], seen + {TlvKey(other[i])});
        r := r + [other[i]];
        seen := seen + {TlvKey(other[i])};
      }
    }
  }

  function MergedTlvs(selected: seq<Tlv>, other: seq<Tlv>): seq<Tlv> {
    selected + FreshTlvs(other, TlvKeys(selected))
  }

  lemma TlvKeysCons(t: Tlv, s: seq<Tlv>)
    ensures TlvKeys([t] + s) == {TlvKey(t)} + TlvKeys(s)
  {
    assert forall x :: x in [t] + s <==> x == t || x in s;
  }

  /** The added TLVs have new keys, no key twice, and together all keys are covered. */
  lemma {:induction false} FreshTlvsNew(other: seq<Tlv>, seen: set<string>)
    ensures TlvKeys(FreshTlvs(other, seen)) == TlvKeys(other) - seen
    ensures forall i, j | 0 <= i < j < |FreshTlvs(other, seen)| ::
              TlvKey(FreshTlvs(other, seen)[i]) != TlvKey(FreshTlvs(other, seen)[j])
    decreases |other|
  {
    if other != [] {
      var t, rest := other[0], other[1..];
      assert other == [t] + rest;
      var seen' := if TlvKey(t) in seen then seen else seen + {TlvKey(t)};
      FreshTlvsNew(rest, seen');
      TlvKeysCons(t, rest);
      TlvKeysCons(t, FreshTlvs(rest, seen'));
      var r, f := FreshTlvs(other, seen), FreshTlvs(rest, seen');
      if TlvKey(t) !in seen {
        assert r == [t] + f;
        forall j | 0 <= j < |f| ensures TlvKey(f[j]) != TlvKey(t) {
          assert f[j] in f;
          assert TlvKey(f[j]) in TlvKeys(f);
        }
      }
    }
  }

  /** The added TLVs keep their order, and of those with one key the first is added: one more TLV is added
      at the end, unless its key was seen or came before. */
  lemma {:induction false} FreshTlvsSnoc(other: seq<Tlv>, t: Tlv, seen: set<string>)
    ensures FreshTlvs(other + [t], seen) ==
            FreshTlvs(other, seen) + if TlvKey(t) in seen || TlvKey(t) in TlvKeys(other) then [] else [t]
    decreases |other|
  {
    if other == [] {
      assert [] + [t] == [t] && [t][1..] == [];
    } else {
      var h, rest := other[0], other[1..];
      assert other == [h] + rest && (other + [t])[1..] == rest + [t];
      TlvKeysCons(h, rest);
      FreshTlvsSnoc(rest, t, if TlvKey(h) in seen then seen else seen + {TlvKey(h)});
    }
  }

  lemma {:induction false} FreshTlvsFrom(other: seq<Tlv>, seen: set<string>)
    ensures forall t | t in FreshTlvs(other, seen) :: t in other
    decreases |other|
  {
    if other != [] {
      FreshTlvsFrom(other[1..], if TlvKey(other[0]) in seen then seen else seen + {TlvKey(other[0])});
      assert other == [other[0]] + other[1..];
    }
  }

  /** No TLV that only b has shares its key with another. */
  ghost predicate KeysTell(a: seq<Tlv>, b: seq<Tlv>) {
    forall s, t | s in a + b && t in b && t !in a && TlvKey(s) == TlvKey(t) :: s == t
  }

  lemma KeptIfTold(a: seq<Tlv>, b: seq<Tlv>, t: Tlv)
    requires KeysTell(a, b) && t in b
    ensures t in MergedTlvs(a, b)
  {
    var f := FreshTlvs(b, TlvKeys(a));
    FreshTlvsNew(b, TlvKeys(a));
    FreshTlvsFrom(b, TlvKeys(a));
    TlvKeysConcat(a, f);
    assert TlvKey(t) in TlvKeys(MergedTlvs(a, b));
    var s :| s in MergedTlvs(a, b) && TlvKey(s) == TlvKey(t);
    assert s in a + b;
  }

  lemma ToldIfKept(a: seq<Tlv>, b: seq<Tlv>, s: Tlv, t: Tlv)
    requires forall x | x in b :: x in MergedTlvs(a, b)
    requires s in a + b && t in b && t !in a && TlvKey(s) == TlvKey(t)
    ensures s == t
  {
    var f := FreshTlvs(b, TlvKeys(a));
    FreshTlvsNew(b, TlvKeys(a));
    assert t in f;
    assert TlvKey(t) in TlvKeys(f);
    assert s !in a;
    assert s in f;
    var i :| 0 <= i < |f| && f[i] == s;
    var j :| 0 <= j < |f| && f[j] == t;
    assert i == j;
  }

  /** A merge keeps every TLV of both lists exactly when no TLV that only the second one has shares its
      key with another. */
  lemma MergeKeepsExactly(a: seq<Tlv>, b: seq<Tlv>)
    ensures (forall t | t in a + b :: t in MergedTlvs(a, b)) <==> KeysTell(a, b)
  {
    if KeysTell(a, b) {
      forall t | t in a + b ensures t in MergedTlvs(a, b) {
        if t in b { KeptIfTold(a, b, t); }
      }
    }
    if forall t | t in a + b :: t in MergedTlvs(a, b) {
      assert forall x | x in b :: x in a + b;
      forall s, t | s in a + b && t in b && t !in a && TlvKey(s) == TlvKey(t) ensures s == t {
        ToldIfKept(a, b, s, t);
      }
    }
  }

  /** No TLV that only b has differs from another in the enterprise number alone. */
  ghost predicate EnterprisesAgree(a: seq<Tlv>, b: seq<Tlv>) {
    forall s, t | s in a + b && t in b && t !in a && s == t.(enterprise := s.enterprise) :: s == t
  }

  /** When no registry holds a slash, only the enterprise number can be at fault. */
  lemma MergeKeepsPlain(a: seq<Tlv>, b: seq<Tlv>)
    requires forall t | t in a + b :: SlashFree(t.registry)
    ensures (forall t | t in a + b :: t in MergedTlvs(a, b)) <==> EnterprisesAgree(a, b)
  {
    MergeKeepsExactly(a, b);
    forall s, t | s in a + b && t in b
      ensures TlvKey(s) == TlvKey(t) <==> s == t.(enterprise := s.enterprise)
    {
      assert t in a + b;
      TlvKeyExact(s, t);
    }
  }

  // ---------------------------------------------------------------- an entity by its parts

  /** The names of the merged fields, in merge order. */
  function Names(kind: Kind): seq<string> {
    match kind
    case NodeKind => ["name", "igp_router_id", "bgp_router_id", "ipv4_router_id", "ipv6_router_id", "area_id"]
    case LinkKind => ["local_address", "remote_address", "local_ipv4_address", "remote_ipv4_address",
                      "local_ipv6_address", "remote_ipv6_address", "igp_metric", "te_metric", "delay_microseconds"]
    case PrefixKind => ["metric", "forwarding_address"]
    case _ => []
  }

  /** The merged fields as texts; an empty text is an empty field. */
  function Texts(e: Entity): (r: seq<string>)
    ensures |r| == |Names(KindOf(e))|
  {
    match e
    case NodeEntity(n) => [n.name, n.igpRouterId, n.bgpRouterId, n.ipv4RouterId, n.ipv6RouterId, n.areaId]
    case LinkEntity(l) => [l.localAddress, l.remoteAddress, l.localIpv4, l.remoteIpv4, l.localIpv6, l.remoteIpv6,
                           MetricText(l.igpMetric), MetricText(l.teMetric), MetricText(l.delay)]
    case PrefixEntity(p) => [MetricText(p.metric), p.forwardingAddress]
    case _ => []
  }

  function BlankMeta(m: Meta): Meta {
    m.(conflicts := [], tlvs := [], sourcePeerIds := [])
  }

  /** The unmerged fields: everything else, with the merged parts blanked. */
  function Unmerged(e: Entity): Entity {
    match e
    case NodeEntity(n) =>
      NodeEntity(n.(name := "", igpRouterId := "", bgpRouterId := "", ipv4RouterId := "", ipv6RouterId := "",
                    areaId := "", meta := BlankMeta(n.meta)))
    case LinkEntity(l) =>
      LinkEntity(l.(localAddress := "", remoteAddress := "", localIpv4 := "", remoteIpv4 := "", localIpv6 := "",
                    remoteIpv6 := "", igpMetric := 0, teMetric := 0, delay := 0, meta := BlankMeta(l.meta)))
    case PrefixEntity(p) => PrefixEntity(p.(metric := 0, forwardingAddress := "", meta := BlankMeta(p.meta)))
    case _ => e
  }

  function MetaOf(e: Entity): Option<Meta> {
    match e
    case NodeEntity(n) => Some(n.meta)
    case LinkEntity(l) => Some(l.meta)
    case PrefixEntity(p) => Some(p.meta)
    case _ => None
  }

  function Conflicts(e: Entity): seq<Conflict> {
    if MetaOf(e).Some? then MetaOf(e).value.conflicts else []
  }

  function Tlvs(e: Entity): seq<Tlv> {
    if MetaOf(e).Some? then MetaOf(e).value.tlvs else []
  }

  function Sources(e: Entity): seq<string> {
    if MetaOf(e).Some? then MetaOf(e).value.sourcePeerIds else []
  }

  /** The parts determine the entity. */
  lemma PartsDetermine(a: Entity, b: Entity)
    requires Unmerged(a) == Unmerged(b) && Texts(a) == Texts(b)
    requires Conflicts(a) == Conflicts(b) && Tlvs(a) == Tlvs(b) && Sources(a) == Sources(b)
    ensures a == b
  {
    assert forall i | 0 <= i < |Texts(a)| :: Texts(a)[i] == Texts(b)[i];
    match a
    case NodeEntity(_) =>
      assert Texts(a)[0] == Texts(b)[0] && Texts(a)[1] == Texts(b)[1] && Texts(a)[2] == Texts(b)[2];
      assert Texts(a)[3] == Texts(b)[3] && Texts(a)[4] == Texts(b)[4] && Texts(a)[5] == Texts(b)[5];
    case LinkEntity(l) =>
      assert Texts(a)[0] == Texts(b)[0] && Texts(a)[1] == Texts(b)[1] && Texts(a)[2] == Texts(b)[2];
      assert Texts(a)[3] == Texts(b)[3] && Texts(a)[4] == Texts(b)[4] && Texts(a)[5] == Texts(b)[5];
      assert Texts(a)[6] == Texts(b)[6] && Texts(a)[7] == Texts(b)[7] && Texts(a)[8] == Texts(b)[8];
      MetricTextInjective(l.igpMetric, b.link.igpMetric);
      MetricTextInjective(l.teMetric, b.link.teMetric);
      MetricTextInjective(l.delay, b.link.delay);
    case PrefixEntity(p) =>
      assert Texts(a)[0] == Texts(b)[0] && Texts(a)[1] == Texts(b)[1];
      MetricTextInjective(p.metric, b.prefix.metric);
    case _ =>
  }

  // ---------------------------------------------------------------- merging entities

  /** The conflicts of one merge over the first n fields, in merge order. */
  function NewConflicts(names: seq<string>, a: seq<string>, b: seq<string>, p: Peers, n: nat): seq<Conflict>
    requires n <= |names| == |a| == |b|
  {
    if n == 0 then []
    else NewConflicts(names, a, b, p, n - 1) + Clash(names[n - 1], a[n - 1], b[n - 1], p)
  }

  function Clashes(a: Entity, b: Entity, p: Peers): seq<Conflict>
    requires KindOf(a) == KindOf(b)
  {
    NewConflicts(Names(KindOf(a)), Texts(a), Texts(b), p, |Texts(a)|)
  }

  function MergeMeta(a: Meta, b: Meta, conflicts: seq<Conflict>): Meta {
    a.(conflicts := conflicts, tlvs := MergedTlvs(a.tlvs, b.tlvs))
  }

  // The conflicts of a merged entity, field after field.

  function NodeConflicts(a: Node, b: Node, p: Peers): seq<Conflict> {
    a.meta.conflicts
    + Clash("name", a.name, b.name, p)
    + Clash("igp_router_id", a.igpRouterId, b.igpRouterId, p)
    + Clash("bgp_router_id", a.bgpRouterId, b.bgpRouterId, p)
    + Clash("ipv4_router_id", a.ipv4RouterId, b.ipv4RouterId, p)
    + Clash("ipv6_router_id", a.ipv6RouterId, b.ipv6RouterId, p)
    + Clash("area_id", a.areaId, b.areaId, p)
  }

  function AddressConflicts(a: Link, b: Link, p: Peers): seq<Conflict> {
    a.meta.conflicts
    + Clash("local_address", a.localAddress, b.localAddress, p)
    + Clash("remote_address", a.remoteAddress, b.remoteAddress, p)
    + Clash("local_ipv4_address", a.localIpv4, b.localIpv4, p)
    + Clash("remote_ipv4_address", a.remoteIpv4, b.remoteIpv4, p)
    + Clash("local_ipv6_address", a.localIpv6, b.localIpv6, p)
    + Clash("remote_ipv6_address", a.remoteIpv6, b.remoteIpv6, p)
  }

  function MetricConflicts(before: seq<Conflict>, a: Link, b: Link, p: Peers): seq<Conflict> {
    before
    + Clash("igp_metric", MetricText(a.igpMetric), MetricText(b.igpMetric), p)
    + Clash("te_metric", MetricText(a.teMetric), MetricText(b.teMetric), p)
    + Clash("delay_microseconds", MetricText(a.delay), MetricText(b.delay), p)
  }

  function PrefixConflicts(a: Prefix, b: Prefix, p: Peers): seq<Conflict> {
    a.meta.conflicts
    + Clash("metric", MetricText(a.metric), MetricText(b.metric), p)
    + Clash("forwarding_address", a.forwardingAddress, b.forwardingAddress, p)
  }

  lemma OneMore(base: seq<Conflict>, names: seq<string>, a: seq<string>, b: seq<string>, p: Peers, n: nat)
    requires n < |names| == |a| == |b|
    ensures base + NewConflicts(names, a, b, p, n) + Clash(names[n], a[n], b[n], p)
            == base + NewConflicts(names, a, b, p, n + 1)
  {
    Assoc(base, NewConflicts(names, a, b, p, n), Clash(names[n], a[n], b[n], p));
  }

  lemma ThreeMore(base: seq<Conflict>, names: seq<string>, a: seq<string>, b: seq<string>, p: Peers, n: nat)
    requires n + 3 <= |names| == |a| == |b|
    ensures base + NewConflicts(names, a, b, p, n) + Clash(names[n], a[n], b[n], p)
            + Clash(names[n + 1], a[n + 1], b[n + 1], p) + Clash(names[n + 2], a[n + 2], b[n + 2], p)
            == base + NewConflicts(names, a, b, p, n + 3)
  {
    OneMore(base, names, a, b, p, n);
    OneMore(base, names, a, b, p, n + 1);
    OneMore(base, names, a, b, p, n + 2);
  }

  lemma SixConflicts(base: seq<Conflict>, names: seq<string>, a: seq<string>, b: seq<string>, p: Peers)
    requires 6 <= |names| == |a| == |b|
    ensures base + Clash(names[0], a[0], b[0], p) + Clash(names[1], a[1], b[1], p) + Clash(names[2], a[2], b[2], p)
            + Clash(names[3], a[3], b[3], p) + Clash(names[4], a[4], b[4], p) + Clash(names[5], a[5], b[5], p)
            == base + NewConflicts(names, a, b, p, 6)
  {
    assert base + NewConflicts(names, a, b, p, 0) == base;
    ThreeMore(base, names, a, b, p, 0);
    ThreeMore(base, names, a, b, p, 3);
  }

  lemma NodeClashes(a: Node, b: Node, p: Peers)
    ensures NodeConflicts(a, b, p) == a.meta.conflicts + Clashes(NodeEntity(a), NodeEntity(b), p)
  {
    var base, names, x, y := a.meta.conflicts, Names(NodeKind), Texts(NodeEntity(a)), Texts(NodeEntity(b));
    SixConflicts(base, names, x, y, p);
  }

  lemma AddressClashes(a: Link, b: Link, p: Peers)
    ensures AddressConflicts(a, b, p) ==
            a.meta.conflicts + NewConflicts(Names(LinkKind), Texts(LinkEntity(a)), Texts(LinkEntity(b)), p, 6)
  {
    var base, names, x, y := a.meta.conflicts, Names(LinkKind), Texts(LinkEntity(a)), Texts(LinkEntity(b));
    SixConflicts(base, names, x, y, p);
  }

  lemma LinkClashes(a: Link, b: Link, p: Peers)
    ensures MetricConflicts(AddressConflicts(a, b, p), a, b, p)
            == a.meta.conflicts + Clashes(LinkEntity(a), LinkEntity(b), p)
  {
    AddressClashes(a, b, p);
    ThreeMore(a.meta.conflicts, Names(LinkKind), Texts(LinkEntity(a)), Texts(LinkEntity(b)), p, 6);
  }

  lemma PrefixClashes(a: Prefix, b: Prefix, p: Peers)
    ensures PrefixConflicts(a, b, p) == a.meta.conflicts + Clashes(PrefixEntity(a), PrefixEntity(b), p)
  {
    var base, names, x, y := a.meta.conflicts, Names(PrefixKind), Texts(PrefixEntity(a)), Texts(PrefixEntity(b));
    assert base + NewConflicts(names, x, y, p, 0) == base;
    OneMore(base, names, x, y, p, 0);
    OneMore(base, names, x, y, p, 1);
  }

  function MergeNode(a: Node, b: Node, p: Peers): Node {
    a.(name := Filled(a.name, b.name),
       igpRouterId := Filled(a.igpRouterId, b.igpRouterId),
       bgpRouterId := Filled(a.bgpRouterId, b.bgpRouterId),
       ipv4RouterId := Filled(a.ipv4RouterId, b.ipv4RouterId),
       ipv6RouterId := Filled(a.ipv6RouterId, b.ipv6RouterId),
       areaId := Filled(a.areaId, b.areaId),
       meta := MergeMeta(a.meta, b.meta, NodeConflicts(a, b, p)))
  }

  function MergeLink(a: Link, b: Link, p: Peers): Link {
    a.(localAddress := Filled(a.localAddress, b.localAddress),
       remoteAddress := Filled(a.remoteAddress, b.remoteAddress),
       localIpv4 := Filled(a.localIpv4, b.localIpv4),
       remoteIpv4 := Filled(a.remoteIpv4, b.remoteIpv4),
       localIpv6 := Filled(a.localIpv6, b.localIpv6),
       remoteIpv6 := Filled(a.remoteIpv6, b.remoteIpv6),
       igpMetric := FilledMetric(a.igpMetric, b.igpMetric),
       teMetric := FilledMetric(a.teMetric, b.teMetric),
       delay := FilledMetric(a.delay, b.delay),
       meta := MergeMeta(a.meta, b.meta, MetricConflicts(AddressConflicts(a, b, p), a, b, p)))
  }

  function MergePrefix(a: Prefix, b: Prefix, p: Peers): Prefix {
    a.(metric := FilledMetric(a.metric, b.metric),
       forwardingAddress := Filled(a.forwardingAddress, b.forwardingAddress),
       meta := MergeMeta(a.meta, b.meta, PrefixConflicts(a, b, p)))
  }

  /** What mergeEntity makes of two values; different kinds are left alone. */
  function MergeEntity(a: Entity, b: Entity, p: Peers): Entity {
    match (a, b)
    case (NodeEntity(x), NodeEntity(y)) => NodeEntity(MergeNode(x, y, p))
    case (LinkEntity(x), LinkEntity(y)) => LinkEntity(MergeLink(x, y, p))
    case (PrefixEntity(x), PrefixEntity(y)) => PrefixEntity(MergePrefix(x, y, p))
    case _ => a
  }

  // ---------------------------------------------------------------- the merge as the code runs it

  /** mergeString: the new value of the selected field, and the conflicts with what it adds to them. */
  method MergeString(field: string, selected: string, other: string, conflicts: seq<Conflict>, p: Peers)
    returns (r: string, more: seq<Conflict>)
    ensures r == Filled(selected, other) && more == conflicts + Clash(field, selected, other, p)
  {
    r, more := selected, conflicts;
    if selected == "" { return other, more; }
    if other != "" && selected != other {
      more := more + [Conflict(field, selected, p.selected, other, p.other)];
    }
  }

  /** mergeUint64, which prints the two values of a conflict. */
  method MergeUint64(field: string, selected: uint64, other: uint64, conflicts: seq<Conflict>, p: Peers)
    returns (r: uint64, more: seq<Conflict>)
    ensures r == FilledMetric(selected, other)
    ensures more == conflicts + Clash(field, MetricText(selected), MetricText(other), p)
  {
    r, more := selected, conflicts;
    ClashOfMetrics(field, selected, other, p);
    if selected == 0 { return other, more; }
    if other != 0 && selected != other {
      more := more + [Conflict(field, Decimal(selected), p.selected, Decimal(other), p.other)];
    }
  }

  /** mergeEntity on nodes: field by field in order, then the TLVs. */
  method MergeNodes(a: Node, b: Node, p: Peers) returns (r: Node)
    ensures r == MergeNode(a, b, p)
  {
    var name, c1 := MergeString("name", a.name, b.name, a.meta.conflicts, p);
    var igpRouterId, c2 := MergeString("igp_router_id", a.igpRouterId, b.igpRouterId, c1, p);
    var bgpRouterId, c3 := MergeString("bgp_router_id", a.bgpRouterId, b.bgpRouterId, c2, p);
    var ipv4RouterId, c4 := MergeString("ipv4_router_id", a.ipv4RouterId, b.ipv4RouterId, c3, p);
    var ipv6RouterId, c5 := MergeString("ipv6_router_id", a.ipv6RouterId, b.ipv6RouterId, c4, p);
    var areaId, c6 := MergeString("area_id", a.areaId, b.areaId, c5, p);
    var tlvs := MergeTLVs(a.meta.tlvs, b.meta.tlvs);
    r := a.(name := name, igpRouterId := igpRouterId, bgpRouterId := bgpRouterId,
            ipv4RouterId := ipv4RouterId, ipv6RouterId := ipv6RouterId, areaId := areaId,
            meta := a.meta.(conflicts := c6, tlvs := tlvs));
  }

  /** mergeEntity on links: field by field in order, then the TLVs. */
  method MergeLinks(a: Link, b: Link, p: Peers) returns (r: Link)
    ensures r == MergeLink(a, b, p)
  {
    var localAddress, c1 := MergeString("local_address", a.localAddress, b.localAddress, a.meta.conflicts, p);
    var remoteAddress, c2 := MergeString("remote_address", a.remoteAddress, b.remoteAddress, c1, p);
    var localIpv4, c3 := MergeString("local_ipv4_address", a.localIpv4, b.localIpv4, c2, p);
    var remoteIpv4, c4 := MergeString("remote_ipv4_address", a.remoteIpv4, b.remoteIpv4, c3, p);
    var localIpv6, c5 := MergeString("local_ipv6_address", a.localIpv6, b.localIpv6, c4, p);
    var remoteIpv6, c6 := MergeString("remote_ipv6_address", a.remoteIpv6, b.remoteIpv6, c5, p);
    var igpMetric, c7 := MergeUint64("igp_metric", a.igpMetric, b.igpMetric, c6, p);
    var teMetric, c8 := MergeUint64("te_metric", a.teMetric, b.teMetric, c7, p);
    var delay, c9 := MergeUint64("delay_microseconds", a.delay, b.delay, c8, p);
    var tlvs := MergeTLVs(a.meta.tlvs, b.meta.tlvs);
    r := a.(localAddress := localAddress, remoteAddress := remoteAddress,
            localIpv4 := localIpv4, remoteIpv4 := remoteIpv4, localIpv6 := localIpv6, remoteIpv6 := remoteIpv6,
            igpMetric := igpMetric, teMetric := teMetric, delay := delay,
            meta := a.meta.(conflicts := c9, tlvs := tlvs));
  }

  /** mergeEntity on prefixes: field by field in order, then the TLVs. */
  method MergePrefixes(a: Prefix, b: Prefix, p: Peers) returns (r: Prefix)
    ensures r == MergePrefix(a, b, p)
  {
    var metric, c1 := MergeUint64("metric", a.metric, b.metric, a.meta.conflicts, p);
    var forwardingAddress, c2 := MergeString("forwarding_address", a.forwardingAddress, b.forwardingAddress, c1, p);
    var tlvs := MergeTLVs(a.meta.tlvs, b.meta.tlvs);
    r := a.(metric := metric, forwardingAddress := forwardingAddress,
            meta := a.meta.(conflicts := c2, tlvs := tlvs));
  }

  /** mergeEntity as the code runs it. */
  method MergeInto(a: Entity, b: Entity, p: Peers) returns (r: Entity)
    ensures r == MergeEntity(a, b, p)
  {
    match (a, b)
    case (NodeEntity(x), NodeEntity(y)) =>
      var n := MergeNodes(x, y, p);
      r := NodeEntity(n);
    case (LinkEntity(x), LinkEntity(y)) =>
      var l := MergeLinks(x, y, p);
      r := LinkEntity(l);
    case (PrefixEntity(x), PrefixEntity(y)) =>
      var f := MergePrefixes(x, y, p);
      r := PrefixEntity(f);
    case _ => r := a;
  }

  /** setSources. */
  function SetSources(e: Entity, sources: seq<string>): Entity {
    match e
    case NodeEntity(x) => NodeEntity(x.(meta := x.meta.(sourcePeerIds := sources)))
    case LinkEntity(x) => LinkEntity(x.(meta := x.meta.(sourcePeerIds := sources)))
    case PrefixEntity(x) => PrefixEntity(x.(meta := x.meta.(sourcePeerIds := sources)))
    case _ => e
  }

  /** Values of different kinds, and peers and domains, are not merged and carry no sources. */
  lemma OthersNotMerged(a: Entity, b: Entity, p: Peers, sources: seq<string>)
    ensures KindOf(a) != KindOf(b) || a.PeerEntity? || a.DomainEntity? ==> MergeEntity(a, b, p) == a
    ensures a.PeerEntity? || a.DomainEntity? ==> SetSources(a, sources) == a
  {
  }

  /** The conflict that a field of this name gives. */
  ghost predicate Differs(field: string, x: string, y: string, p: Peers, c: Conflict) {
    x != "" && y != "" && x != y && c == Conflict(field, x, p.selected, y, p.other)
  }

  ghost predicate MetricsDiffer(field: string, x: uint64, y: uint64, p: Peers, c: Conflict) {
    x != 0 && y != 0 && x != y && c == Conflict(field, Decimal(x), p.selected, Decimal(y), p.other)
  }

  lemma ClashIs(field: string, x: string, y: string, p: Peers, c: Conflict)
    ensures c in Clash(field, x, y, p) <==> Differs(field, x, y, p, c)
  {
  }

  lemma MetricClashIs(field: string, x: uint64, y: uint64, p: Peers, c: Conflict)
    ensures c in Clash(field, MetricText(x), MetricText(y), p) <==> MetricsDiffer(field, x, y, p, c)
  {
    ClashOfMetrics(field, x, y, p);
  }

  /** A conflict of two nodes names the field in which they differ. */
  lemma NodeConflictNames(a: Node, b: Node, p: Peers, c: Conflict)
    ensures c in MergeNode(a, b, p).meta.conflicts <==>
            || c in a.meta.conflicts
            || Differs("name", a.name, b.name, p, c)
            || Differs("igp_router_id", a.igpRouterId, b.igpRouterId, p, c)
            || Differs("bgp_router_id", a.bgpRouterId, b.bgpRouterId, p, c)
            || Differs("ipv4_router_id", a.ipv4RouterId, b.ipv4RouterId, p, c)
            || Differs("ipv6_router_id", a.ipv6RouterId, b.ipv6RouterId, p, c)
            || Differs("area_id", a.areaId, b.areaId, p, c)
  {
  }

  lemma AddressConflictNames(a: Link, b: Link, p: Peers, c: Conflict)
    ensures c in AddressConflicts(a, b, p) <==>
            || c in a.meta.conflicts
            || Differs("local_address", a.localAddress, b.localAddress, p, c)
            || Differs("remote_address", a.remoteAddress, b.remoteAddress, p, c)
            || Differs("local_ipv4_address", a.localIpv4, b.localIpv4, p, c)
            || Differs("remote_ipv4_address", a.remoteIpv4, b.remoteIpv4, p, c)
            || Differs("local_ipv6_address", a.localIpv6, b.localIpv6, p, c)
            || Differs("remote_ipv6_address", a.remoteIpv6, b.remoteIpv6, p, c)
  {
  }

  /** So does one of two links. */
  lemma LinkConflictNames(a: Link, b: Link, p: Peers, c: Conflict)
    ensures c in MergeLink(a, b, p).meta.conflicts <==>
            || c in a.meta.conflicts
            || Differs("local_address", a.localAddress, b.localAddress, p, c)
            || Differs("remote_address", a.remoteAddress, b.remoteAddress, p, c)
            || Differs("local_ipv4_address", a.localIpv4, b.localIpv4, p, c)
            || Differs("remote_ipv4_address", a.remoteIpv4, b.remoteIpv4, p, c)
            || Differs("local_ipv6_address", a.localIpv6, b.localIpv6, p, c)
            || Differs("remote_ipv6_address", a.remoteIpv6, b.remoteIpv6, p, c)
            || MetricsDiffer("igp_metric", a.igpMetric, b.igpMetric, p, c)
            || MetricsDiffer("te_metric", a.teMetric, b.teMetric, p, c)
            || MetricsDiffer("delay_microseconds", a.delay, b.delay, p, c)
  {
    AddressConflictNames(a, b, p, c);
    MetricClashIs("igp_metric", a.igpMetric, b.igpMetric, p, c);
    MetricClashIs("te_metric", a.teMetric, b.teMetric, p, c);
    MetricClashIs("delay_microseconds", a.delay, b.delay, p, c);
  }

  /** And one of two prefixes. */
  lemma PrefixConflictNames(a: Prefix, b: Prefix, p: Peers, c: Conflict)
    ensures c in MergePrefix(a, b, p).meta.conflicts <==>
            || c in a.meta.conflicts
            || MetricsDiffer("metric", a.metric, b.metric, p, c)
            || Differs("forwarding_address", a.forwardingAddress, b.forwardingAddress, p, c)
  {
    MetricClashIs("metric", a.metric, b.metric, p, c);
  }

  /** Field i of r is that of a, filled from b. */
  ghost predicate FillsAt(a: Entity, b: Entity, r: Entity, i: nat)
    requires KindOf(a) == KindOf(b) == KindOf(r) && i < |Names(KindOf(a))|
  {
    Texts(r)[i] == Filled(Texts(a)[i], Texts(b)[i])
  }

  /** What a merge does to each part. */
  ghost predicate Merges(a: Entity, b: Entity, p: Peers, r: Entity)
    requires KindOf(a) == KindOf(b)
  {
    && KindOf(r) == KindOf(a)
    && Unmerged(r) == Unmerged(a) && Sources(r) == Sources(a)
    && (forall i | 0 <= i < |Names(KindOf(a))| :: FillsAt(a, b, r, i))
    && Conflicts(r) == Conflicts(a) + Clashes(a, b, p)
    && (MetaOf(a).Some? ==> Tlvs(r) == MergedTlvs(Tlvs(a), Tlvs(b)))
  }

  lemma MergeNodeTexts(x: Node, y: Node, p: Peers, i: nat)
    requires i < 6
    ensures FillsAt(NodeEntity(x), NodeEntity(y), NodeEntity(MergeNode(x, y, p)), i)
  {
    var a, b, c := Texts(NodeEntity(x)), Texts(NodeEntity(y)), Texts(NodeEntity(MergeNode(x, y, p)));
    assert c[0] == Filled(a[0], b[0]) && c[1] == Filled(a[1], b[1]) && c[2] == Filled(a[2], b[2]);
    assert c[3] == Filled(a[3], b[3]) && c[4] == Filled(a[4], b[4]) && c[5] == Filled(a[5], b[5]);
  }

  lemma MergeLinkAddresses(x: Link, y: Link, p: Peers, i: nat)
    requires i < 3
    ensures FillsAt(LinkEntity(x), LinkEntity(y), LinkEntity(MergeLink(x, y, p)), i)
  {
    var a, b, c := Texts(LinkEntity(x)), Texts(LinkEntity(y)), Texts(LinkEntity(MergeLink(x, y, p)));
    assert c[0] == Filled(a[0], b[0]) && c[1] == Filled(a[1], b[1]) && c[2] == Filled(a[2], b[2]);
  }

  lemma MergeLinkMoreAddresses(x: Link, y: Link, p: Peers, i: nat)
    requires 3 <= i < 6
    ensures FillsAt(LinkEntity(x), LinkEntity(y), LinkEntity(MergeLink(x, y, p)), i)
  {
    var a, b, c := Texts(LinkEntity(x)), Texts(LinkEntity(y)), Texts(LinkEntity(MergeLink(x, y, p)));
    assert c[3] == Filled(a[3], b[3]) && c[4] == Filled(a[4], b[4]) && c[5] == Filled(a[5], b[5]);
  }

  lemma MergeLinkMetrics(x: Link, y: Link, p: Peers, i: nat)
    requires 6 <= i < 9
    ensures FillsAt(LinkEntity(x), LinkEntity(y), LinkEntity(MergeLink(x, y, p)), i)
  {
    FilledMetricText(x.igpMetric, y.igpMetric);
    FilledMetricText(x.teMetric, y.teMetric);
    FilledMetricText(x.delay, y.delay);
    var a, b, c := Texts(LinkEntity(x)), Texts(LinkEntity(y)), Texts(LinkEntity(MergeLink(x, y, p)));
    assert c[6] == Filled(a[6], b[6]) && c[7] == Filled(a[7], b[7]) && c[8] == Filled(a[8], b[8]);
  }

  lemma MergePrefixFields(x: Prefix, y: Prefix, p: Peers, i: nat)
    requires i < 2
    ensures FillsAt(PrefixEntity(x), PrefixEntity(y), PrefixEntity(MergePrefix(x, y, p)), i)
  {
    FilledMetricText(x.metric, y.metric);
  }

  /** Merging fills each empty field, keeps each other field, and records exactly the differences. */
  lemma MergeEntityParts(a: Entity, b: Entity, p: Peers)
    requires KindOf(a) == KindOf(b)
    ensures Merges(a, b, p, MergeEntity(a, b, p))
  {
    match a {
      case NodeEntity(x) => NodeClashes(x, b.node, p);
      case LinkEntity(x) => LinkClashes(x, b.link, p);
      case PrefixEntity(x) => PrefixClashes(x, b.prefix, p);
      case _ =>
    }
    forall i | 0 <= i < |Names(KindOf(a))| ensures FillsAt(a, b, MergeEntity(a, b, p), i) {
      match a
      case NodeEntity(x) => MergeNodeTexts(x, b.node, p, i);
      case LinkEntity(x) =>
        if i < 3 { MergeLinkAddresses(x, b.link, p, i); }
        else if i < 6 { MergeLinkMoreAddresses(x, b.link, p, i); }
        else { MergeLinkMetrics(x, b.link, p, i); }
      case PrefixEntity(x) => MergePrefixFields(x, b.prefix, p, i);
      case _ =>
    }
  }

  // ---------------------------------------------------------------- merging by parts

  /** An entity taken apart, with the peer it comes from. */
  datatype Part = Part(peer: string, unmerged: Entity, texts: seq<string>, conflicts: seq<Conflict>, tlvs: seq<Tlv>,
                       sources: seq<string>)

  function PartOf(peer: string, e: Entity): Part {
    Part(peer, Unmerged(e), Texts(e), Conflicts(e), Tlvs(e), Sources(e))
  }

  /** Each text filled from the other side where it is empty. */
  function FilledAll(a: seq<string>, b: seq<string>): (r: seq<string>)
    requires |a| == |b|
    ensures |r| == |a| && forall i | 0 <= i < |a| :: r[i] == Filled(a[i], b[i])
  {
    seq(|a|, i requires 0 <= i < |a| => Filled(a[i], b[i]))
  }

  function MergePart(names: seq<string>, a: Part, b: Part): Part
    requires |a.texts| == |b.texts| == |names|
  {
    a.(texts := FilledAll(a.texts, b.texts),
       conflicts := a.conflicts + NewConflicts(names, a.texts, b.texts, Peers(a.peer, b.peer), |names|),
       tlvs := MergedTlvs(a.tlvs, b.tlvs))
  }

  lemma AllFilled(a: seq<string>, b: seq<string>, r: seq<string>)
    requires |a| == |b| == |r| && forall i | 0 <= i < |a| :: r[i] == Filled(a[i], b[i])
    ensures r == FilledAll(a, b)
  {
  }

  lemma MergesTexts(a: Entity, b: Entity, p: Peers, r: Entity)
    requires KindOf(a) == KindOf(b) && Merges(a, b, p, r)
    ensures Texts(r) == FilledAll(Texts(a), Texts(b))
  {
    var x, y, z := Texts(a), Texts(b), Texts(r);
    forall i | 0 <= i < |x| ensures z[i] == Filled(x[i], y[i]) {
      assert FillsAt(a, b, r, i);
    }
    AllFilled(x, y, z);
  }

  lemma MergesPart(a: Entity, b: Entity, p: Peers, r: Entity)
    requires KindOf(a) == KindOf(b) && Merges(a, b, p, r)
    ensures PartOf(p.selected, r) == MergePart(Names(KindOf(a)), PartOf(p.selected, a), PartOf(p.other, b))
  {
    MergesTexts(a, b, p, r);
  }

  /** Merging entities is merging their parts. */
  lemma MergeEntityPart(a: Entity, b: Entity, p: Peers)
    requires KindOf(a) == KindOf(b)
    ensures KindOf(MergeEntity(a, b, p)) == KindOf(a)
    ensures PartOf(p.selected, MergeEntity(a, b, p))
            == MergePart(Names(KindOf(a)), PartOf(p.selected, a), PartOf(p.other, b))
  {
    MergeEntityParts(a, b, p);
    MergesPart(a, b, p, MergeEntity(a, b, p));
  }

  ghost predicate Wide(ps: seq<Part>, width: nat) {
    forall j | 0 <= j < |ps| :: |ps[j].texts| == width
  }

  /** The first n parts merged in order into the first. */
  function MergeParts(names: seq<string>, ps: seq<Part>, n: nat): (r: Part)
    requires 1 <= n <= |ps| && Wide(ps, |names|)
    ensures |r.texts| == |names| && r.peer == ps[0].peer && r.unmerged == ps[0].unmerged && r.sources == ps[0].sources
  {
    if n == 1 then ps[0] else MergePart(names, MergeParts(names, ps, n - 1), ps[n - 1])
  }

  // ---------------------------------------------------------------- the merged texts

  /** The first non-empty text of field i among the first n sources. */
  function FirstText(ps: seq<Part>, n: nat, i: nat): (t: string)
    requires n <= |ps| && forall j | 0 <= j < n :: i < |ps[j].texts|
    ensures t == "" <==> forall j | 0 <= j < n :: ps[j].texts[i] == ""
    ensures t != "" ==> exists j :: 0 <= j < n && ps[j].texts[i] == t
                                    && forall k | 0 <= k < j :: ps[k].texts[i] == ""
  {
    if n == 0 then "" else Filled(FirstText(ps, n - 1, i), ps[n - 1].texts[i])
  }

  /** The final texts of all fields. */
  function Finals(ps: seq<Part>, n: nat, width: nat): (r: seq<string>)
    requires n <= |ps| && Wide(ps, width)
    ensures |r| == width && forall i | 0 <= i < width :: r[i] == FirstText(ps, n, i)
  {
    seq(width, i requires 0 <= i < width => FirstText(ps, n, i))
  }

  lemma FinalsStep(ps: seq<Part>, n: nat, width: nat)
    requires n < |ps| && Wide(ps, width)
    ensures Finals(ps, n + 1, width) == FilledAll(Finals(ps, n, width), ps[n].texts)
  {
  }

  lemma FinalsOne(ps: seq<Part>, width: nat)
    requires ps != [] && Wide(ps, width)
    ensures Finals(ps, 1, width) == ps[0].texts
  {
    forall i | 0 <= i < width ensures FirstText(ps, 1, i) == ps[0].texts[i] {
      assert FirstText(ps, 0, i) == "";
    }
  }

  lemma MergePartsStep(names: seq<string>, ps: seq<Part>, n: nat)
    requires 1 < n <= |ps| && Wide(ps, |names|)
    ensures MergeParts(names, ps, n).texts == FilledAll(MergeParts(names, ps, n - 1).texts, ps[n - 1].texts)
  {
  }

  /** Every merged field is the first non-empty value, in order of preference. */
  lemma {:induction false} MergedTexts(names: seq<string>, ps: seq<Part>, n: nat)
    requires 1 <= n <= |ps| && Wide(ps, |names|)
    ensures MergeParts(names, ps, n).texts == Finals(ps, n, |names|)
  {
    if n > 1 {
      MergedTexts(names, ps, n - 1);
      MergePartsStep(names, ps, n);
      FinalsStep(ps, n - 1, |names|);
    } else {
      FinalsOne(ps, |names|);
    }
  }

  // ---------------------------------------------------------------- the conflicts

  /** The conflicts of one source against final values: one for each of its first n fields that is
      set and differs. */
  function Rejections(names: seq<string>, finals: seq<string>, texts: seq<string>, p: Peers, n: nat): seq<Conflict>
    requires n <= |names| == |finals| == |texts|
  {
    if n == 0 then []
    else
      Rejections(names, finals, texts, p, n - 1) +
      if texts[n - 1] != "" && texts[n - 1] != finals[n - 1]
      then [Conflict(names[n - 1], finals[n - 1], p.selected, texts[n - 1], p.other)] else []
  }

  /** All conflicts of the first n sources; the first of them has none. */
  function AllRejections(names: seq<string>, ps: seq<Part>, finals: seq<string>, n: nat): seq<Conflict>
    requires 1 <= n <= |ps| && Wide(ps, |names|) && |finals| == |names|
  {
    if n == 1 then []
    else
      AllRejections(names, ps, finals, n - 1) +
      Rejections(names, finals, ps[n - 1].texts, Peers(ps[0].peer, ps[n - 1].peer), |names|)
  }

  lemma {:induction false} ClashesAreRejections(names: seq<string>, a: seq<string>, b: seq<string>, p: Peers, n: nat)
    requires n <= |names| == |a| == |b|
    ensures NewConflicts(names, a, b, p, n) == Rejections(names, FilledAll(a, b), b, p, n)
  {
    if n > 0 { ClashesAreRejections(names, a, b, p, n - 1); }
  }

  /** f' differs from f only where the source, like f, is empty. */
  ghost predicate Extends(f: seq<string>, f': seq<string>, texts: seq<string>) {
    |f| == |f'| == |texts| && forall i | 0 <= i < |f| :: f'[i] == f[i] || (f[i] == "" && texts[i] == "")
  }

  /** A rejection stays one when later sources fill in fields that were empty for all so far. */
  lemma {:induction false} RejectionsStable(names: seq<string>, f: seq<string>, f': seq<string>, texts: seq<string>,
                                            p: Peers, n: nat)
    requires n <= |names| == |f| && Extends(f, f', texts)
    ensures Rejections(names, f, texts, p, n) == Rejections(names, f', texts, p, n)
  {
    if n > 0 { RejectionsStable(names, f, f', texts, p, n - 1); }
  }

  lemma {:induction false} AllRejectionsStable(names: seq<string>, ps: seq<Part>, f: seq<string>, f': seq<string>,
                                               n: nat)
    requires 1 <= n <= |ps| && Wide(ps, |names|) && |f| == |f'| == |names|
    requires forall j | 0 <= j < n :: Extends(f, f', ps[j].texts)
    ensures AllRejections(names, ps, f, n) == AllRejections(names, ps, f', n)
  {
    if n > 1 {
      AllRejectionsStable(names, ps, f, f', n - 1);
      assert Extends(f, f', ps[n - 1].texts);
      RejectionsStable(names, f, f', ps[n - 1].texts, Peers(ps[0].peer, ps[n - 1].peer), |names|);
    }
  }

  lemma FinalsExtend(ps: seq<Part>, n: nat, width: nat, j: nat)
    requires j < n < |ps| && Wide(ps, width)
    ensures Extends(Finals(ps, n, width), Finals(ps, n + 1, width), ps[j].texts)
  {
    FinalsStep(ps, n, width);
  }

  /** Earlier rejections are the same with or without the next source. */
  lemma EarlierRejections(names: seq<string>, ps: seq<Part>, n: nat)
    requires 1 <= n < |ps| && Wide(ps, |names|)
    ensures AllRejections(names, ps, Finals(ps, n, |names|), n)
            == AllRejections(names, ps, Finals(ps, n + 1, |names|), n)
  {
    forall j | 0 <= j < n ensures Extends(Finals(ps, n, |names|), Finals(ps, n + 1, |names|), ps[j].texts) {
      FinalsExtend(ps, n, |names|, j);
    }
    AllRejectionsStable(names, ps, Finals(ps, n, |names|), Finals(ps, n + 1, |names|), n);
  }

  /** The conflicts one more source adds are its rejections. */
  lemma NextConflicts(names: seq<string>, ps: seq<Part>, n: nat)
    requires 1 <= n < |ps| && Wide(ps, |names|)
    ensures MergeParts(names, ps, n + 1).conflicts == MergeParts(names, ps, n).conflicts +
              Rejections(names, Finals(ps, n + 1, |names|), ps[n].texts, Peers(ps[0].peer, ps[n].peer), |names|)
  {
    MergedTexts(names, ps, n);
    FinalsStep(ps, n, |names|);
    ClashesAreRejections(names, Finals(ps, n, |names|), ps[n].texts, Peers(ps[0].peer, ps[n].peer), |names|);
  }

  /** The conflicts are those of the top source, followed by exactly one for each field and lower
      source whose value is set and differs from the final value. */
  lemma {:induction false} MergedConflicts(names: seq<string>, ps: seq<Part>, n: nat)
    requires 1 <= n <= |ps| && Wide(ps, |names|)
    ensures MergeParts(names, ps, n).conflicts == ps[0].conflicts + AllRejections(names, ps, Finals(ps, n, |names|), n)
  {
    if n > 1 {
      MergedConflicts(names, ps, n - 1);
      EarlierRejections(names, ps, n - 1);
      NextConflicts(names, ps, n - 1);
      Assoc(ps[0].conflicts, AllRejections(names, ps, Finals(ps, n, |names|), n - 1),
            Rejections(names, Finals(ps, n, |names|), ps[n - 1].texts, Peers(ps[0].peer, ps[n - 1].peer), |names|));
    }
  }

  /** A conflict names a field and a rejected peer exactly when that peer's value is set and differs
      from the final value. */
  lemma {:induction false} RejectionsExact(names: seq<string>, finals: seq<string>, texts: seq<string>, p: Peers,
                                           n: nat, c: Conflict)
    requires n <= |names| == |finals| == |texts|
    ensures c in Rejections(names, finals, texts, p, n) <==>
            exists i :: 0 <= i < n && texts[i] != "" && texts[i] != finals[i]
                        && c == Conflict(names[i], finals[i], p.selected, texts[i], p.other)
  {
    if n > 0 { RejectionsExact(names, finals, texts, p, n - 1, c); }
  }

  /** Conflict c says that source j lost field i. */
  ghost predicate Rejected(names: seq<string>, ps: seq<Part>, finals: seq<string>, j: nat, i: nat, c: Conflict)
    requires j < |ps| && Wide(ps, |names|) && |finals| == |names| && i < |names|
  {
    && ps[j].texts[i] != "" && ps[j].texts[i] != finals[i]
    && c == Conflict(names[i], finals[i], ps[0].peer, ps[j].texts[i], ps[j].peer)
  }

  /** Conflict c says that source j lost some field. */
  ghost predicate RejectedBy(names: seq<string>, ps: seq<Part>, finals: seq<string>, j: nat, c: Conflict)
    requires j < |ps| && Wide(ps, |names|) && |finals| == |names|
  {
    exists i :: 0 <= i < |names| && Rejected(names, ps, finals, j, i, c)
  }

  lemma OneRejected(names: seq<string>, ps: seq<Part>, finals: seq<string>, j: nat, c: Conflict)
    requires j < |ps| && Wide(ps, |names|) && |finals| == |names|
    ensures c in Rejections(names, finals, ps[j].texts, Peers(ps[0].peer, ps[j].peer), |names|) <==>
            RejectedBy(names, ps, finals, j, c)
  {
    RejectionsExact(names, finals, ps[j].texts, Peers(ps[0].peer, ps[j].peer), |names|, c);
    if i :| 0 <= i < |names| && ps[j].texts[i] != "" && ps[j].texts[i] != finals[i]
            && c == Conflict(names[i], finals[i], ps[0].peer, ps[j].texts[i], ps[j].peer) {
      assert Rejected(names, ps, finals, j, i, c);
    }
  }

  /** Conflict c says that one of the sources 1..n-1 lost some field. */
  ghost predicate SomeRejected(names: seq<string>, ps: seq<Part>, finals: seq<string>, n: nat, c: Conflict)
    requires n <= |ps| && Wide(ps, |names|) && |finals| == |names|
  {
    exists j :: 1 <= j < n && RejectedBy(names, ps, finals, j, c)
  }

  lemma SomeRejectedStep(names: seq<string>, ps: seq<Part>, finals: seq<string>, n: nat, c: Conflict)
    requires 1 < n <= |ps| && Wide(ps, |names|) && |finals| == |names|
    ensures SomeRejected(names, ps, finals, n, c) <==>
            SomeRejected(names, ps, finals, n - 1, c) || RejectedBy(names, ps, finals, n - 1, c)
  {
  }

  /** Over all sources: a conflict names a field and a lower source exactly when the value of that source
      is set and differs from the final one. */
  lemma {:induction false} AllRejectionsExact(names: seq<string>, ps: seq<Part>, finals: seq<string>, n: nat,
                                              c: Conflict)
    requires 1 <= n <= |ps| && Wide(ps, |names|) && |finals| == |names|
    ensures c in AllRejections(names, ps, finals, n) <==> SomeRejected(names, ps, finals, n, c)
  {
    if n > 1 {
      AllRejectionsExact(names, ps, finals, n - 1, c);
      OneRejected(names, ps, finals, n - 1, c);
      AllRejectionsStep(names, ps, finals, n, c);
      SomeRejectedStep(names, ps, finals, n, c);
    }
  }

  lemma AllRejectionsStep(names: seq<string>, ps: seq<Part>, finals: seq<string>, n: nat, c: Conflict)
    requires 1 < n <= |ps| && Wide(ps, |names|) && |finals| == |names|
    ensures c in AllRejections(names, ps, finals, n) <==>
            c in AllRejections(names, ps, finals, n - 1)
            || c in Rejections(names, finals, ps[n - 1].texts, Peers(ps[0].peer, ps[n - 1].peer), |names|)
  {
  }

  // ---------------------------------------------------------------- the TLVs

  function AllTlvKeys(ps: seq<Part>, n: nat): set<string>
    requires n <= |ps|
  {
    if n == 0 then {} else AllTlvKeys(ps, n - 1) + TlvKeys(ps[n - 1].tlvs)
  }

  lemma TlvKeysConcat(a: seq<Tlv>, b: seq<Tlv>)
    ensures TlvKeys(a + b) == TlvKeys(a) + TlvKeys(b)
  {
    assert forall x :: x in a + b <==> x in a || x in b;
  }

  /** From index k on, no key repeats an earlier one. */
  ghost predicate AddedOnce(tlvs: seq<Tlv>, k: nat) {
    forall i, j | 0 <= i < j < |tlvs| && k <= j :: TlvKey(tlvs[i]) != TlvKey(tlvs[j])
  }

  lemma MergedAddedOnce(a: seq<Tlv>, b: seq<Tlv>, k: nat)
    requires k <= |a| && AddedOnce(a, k)
    ensures AddedOnce(MergedTlvs(a, b), k) && TlvKeys(MergedTlvs(a, b)) == TlvKeys(a) + TlvKeys(b)
  {
    var f := FreshTlvs(b, TlvKeys(a));
    FreshTlvsNew(b, TlvKeys(a));
    TlvKeysConcat(a, f);
    var r := MergedTlvs(a, b);
    forall i, j | 0 <= i < j < |r| && k <= j ensures TlvKey(r[i]) != TlvKey(r[j]) {
      if i < |a| <= j {
        assert r[i] in a && r[j] in f;
        assert TlvKey(r[j]) in TlvKeys(f);
      }
    }
  }

  /** The TLV list starts with the top source's TLVs and adds every other key exactly once. */
  lemma {:induction false} MergedTlvLists(names: seq<string>, ps: seq<Part>, n: nat)
    requires 1 <= n <= |ps| && Wide(ps, |names|)
    ensures ps[0].tlvs <= MergeParts(names, ps, n).tlvs
    ensures AddedOnce(MergeParts(names, ps, n).tlvs, |ps[0].tlvs|)
    ensures TlvKeys(MergeParts(names, ps, n).tlvs) == AllTlvKeys(ps, n)
  {
    if n > 1 {
      MergedTlvLists(names, ps, n - 1);
      MergedAddedOnce(MergeParts(names, ps, n - 1).tlvs, ps[n - 1].tlvs, |ps[0].tlvs|);
    } else {
      assert AllTlvKeys(ps, 0) == {};
    }
  }

  // ---------------------------------------------------------------- merging all sources

  /** One peer's live value for an entity. */
  datatype Source = Source(peerId: string, preference: nat, value: Entity)

  /** The first n sources merged in order: the first is selected, the others fill in. */
  function MergeUpTo(ordered: seq<Source>, n: nat): Entity
    requires 1 <= n <= |ordered|
  {
    if n == 1 then ordered[0].value
    else MergeEntity(MergeUpTo(ordered, n - 1), ordered[n - 1].value, Peers(ordered[0].peerId, ordered[n - 1].peerId))
  }

  function PeerIds(ordered: seq<Source>): (r: seq<string>)
    ensures |r| == |ordered| && forall i | 0 <= i < |r| :: r[i] == ordered[i].peerId
  {
    seq(|ordered|, i requires 0 <= i < |ordered| => ordered[i].peerId)
  }

  /** The canonical entity of an ordered list of sources. */
  function Canonical(ordered: seq<Source>): Entity
    requires ordered != []
  {
    SetSources(MergeUpTo(ordered, |ordered|), PeerIds(ordered))
  }

  ghost predicate OneKind(ordered: seq<Source>, kind: Kind) {
    forall i | 0 <= i < |ordered| :: KindOf(ordered[i].value) == kind
  }

  function PartsOf(ordered: seq<Source>): (ps: seq<Part>)
    ensures |ps| == |ordered| && forall i | 0 <= i < |ps| :: ps[i] == PartOf(ordered[i].peerId, ordered[i].value)
  {
    seq(|ordered|, i requires 0 <= i < |ordered| => PartOf(ordered[i].peerId, ordered[i].value))
  }

  lemma PartsWide(ordered: seq<Source>, kind: Kind)
    requires OneKind(ordered, kind)
    ensures Wide(PartsOf(ordered), |Names(kind)|)
  {
  }

  /** One more source, on both sides. */
  lemma PartStep(kind: Kind, a: Entity, b: Source, top: string, r: Entity, merged: Part)
    requires KindOf(a) == KindOf(b.value) == kind && r == MergeEntity(a, b.value, Peers(top, b.peerId))
    requires PartOf(top, a) == merged
    ensures KindOf(r) == kind && PartOf(top, r) == MergePart(Names(kind), merged, PartOf(b.peerId, b.value))
  {
    MergeEntityPart(a, b.value, Peers(top, b.peerId));
  }

  /** Merging the sources is merging their parts. */
  lemma {:induction false} MergeUpToParts(ordered: seq<Source>, kind: Kind, n: nat)
    requires 1 <= n <= |ordered| && OneKind(ordered, kind) && Wide(PartsOf(ordered), |Names(kind)|)
    ensures KindOf(MergeUpTo(ordered, n)) == kind
    ensures PartOf(ordered[0].peerId, MergeUpTo(ordered, n)) == MergeParts(Names(kind), PartsOf(ordered), n)
  {
    if n > 1 {
      MergeUpToParts(ordered, kind, n - 1);
      PartStep(kind, MergeUpTo(ordered, n - 1), ordered[n - 1], ordered[0].peerId, MergeUpTo(ordered, n),
               MergeParts(Names(kind), PartsOf(ordered), n - 1));
    }
  }
}
