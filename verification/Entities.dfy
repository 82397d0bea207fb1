/** The canonical records of the topology (proto/bgpls/v1/types.proto). */
module Entities {
  const MAX_U64: int := 0xFFFF_FFFF_FFFF_FFFF

  /** Go's uint64; every place the source can wrap writes the wrap out. */
  type uint64 = x: int | 0 <= x <= MAX_U64

  /** Go's `a + b` on uint64. */
  function AddU64(a: uint64, b: uint64): (r: uint64)
    ensures r == a + b <==> a + b <= MAX_U64
  {
    if a + b <= MAX_U64 then a + b else a + b - (MAX_U64 + 1)
  }

  /** r is what 64 bits keep of the exact sum n. */
  ghost predicate WrapsTo(n: nat, r: uint64) {
    exists k: nat :: n == r + Turns(k)
  }

  ghost function Turns(k: nat): nat { k * (MAX_U64 + 1) }

  lemma WrapsToAdd(n: nat, r: uint64, b: uint64)
    requires WrapsTo(n, r)
    ensures WrapsTo(n + b, AddU64(r, b))
  {
    var k: nat :| n == r + Turns(k);
    assert n + b == AddU64(r, b) + Turns(k) || n + b == AddU64(r, b) + Turns(k + 1);
  }

  lemma WrapsToZero()
    ensures WrapsTo(0, 0)
  {
    assert 0 == 0 + Turns(0);
  }

  lemma WrapsToOne(n: nat, r: uint64, r': uint64)
    requires WrapsTo(n, r) && WrapsTo(n, r')
    ensures r == r'
  {
    var k: nat :| n == r + Turns(k);
    var k': nat :| n == r' + Turns(k');
    assert k < k' ==> Turns(k') >= Turns(k) + MAX_U64 + 1;
    assert k' < k ==> Turns(k) >= Turns(k') + MAX_U64 + 1;
  }

  /** The wrapped sum is the exact one precisely when the exact one fits. */
  lemma WrapsToExact(n: nat, r: uint64)
    requires WrapsTo(n, r)
    ensures r == n <==> n <= MAX_U64
  {
    var k: nat :| n == r + Turns(k);
    assert k == 0 || Turns(k) >= MAX_U64 + 1;
  }

  /** Wall-clock instants. */
  type Time = int

  datatype Option<+T> = None | Some(value: T)

  datatype Freshness = FreshnessUnspecified | Active | StaleSourceLost | Withdrawn

  datatype Tlv = Tlv(tag: nat, value: string, registry: string, enterprise: nat)

  datatype Conflict = Conflict(field: string, selectedValue: string, selectedPeer: string,
                               rejectedValue: string, rejectedPeer: string)

  /** A nil meta reads as this record with every field empty. */
  datatype Meta = Meta(id: string, domainId: string, revision: uint64, firstSeen: Option<Time>,
                       lastSeen: Option<Time>, freshness: Freshness, sourcePeerIds: seq<string>,
                       conflicts: seq<Conflict>, tlvs: seq<Tlv>)

  // In every record, `detail` stands for the fields that no modelled code reads or merges.

  datatype Node = Node(meta: Meta, name: string, igpRouterId: string, bgpRouterId: string,
                       ipv4RouterId: string, ipv6RouterId: string, areaId: string, detail: string)

  datatype Link = Link(meta: Meta, localNodeId: string, remoteNodeId: string,
                       localAddress: string, remoteAddress: string,
                       localIpv4: string, remoteIpv4: string, localIpv6: string, remoteIpv6: string,
                       igpMetric: uint64, teMetric: uint64, delay: uint64,
                       multiTopologyId: nat, reservable: real, adminGroups: seq<nat>, detail: string)
  {
    function Id(): string { meta.id }
  }

  datatype Prefix = Prefix(meta: Meta, prefix: string, originNodeId: string, multiTopologyId: nat,
                           metric: uint64, forwardingAddress: string, detail: string)

  datatype SessionState = SessionDisabled | SessionIdle | SessionOther(code: nat)

  datatype Peer = Peer(id: string, domainId: string, enabled: bool, secret: string,
                       session: SessionState, receivedUpdates: uint64, rejectedUpdates: uint64,
                       resourceVersion: uint64, detail: string)

  datatype Domain = Domain(id: string, name: string, description: string, revision: uint64)
}
