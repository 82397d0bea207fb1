/** The reconciler: per-peer advertisements in, canonical entities out
    (internal/topology/reconcile.go:15-81). */
module Reconcile {
  import opened Orders
  import opened Sorting
  import opened Entities
  import opened Keys
  import opened Journal
  import opened StoreModel
  import opened Stores
  import opened Merge

  datatype Advertisement = Advertisement(key: EntityKey, domainId: string, peerId: string, preference: nat,
                                         withdraw: bool, value: Option<Entity>)

  // ---------------------------------------------------------------- source keys

  function KindCode(kind: Kind): nat {
    match kind
    case DomainKind => 0
    case NodeKind => 1
    case LinkKind => 2
    case PrefixKind => 3
    case PeerKind => 4
    case UnknownKind(c) => 5 + c
  }

  /** sourceKey: the kind's number and the id. */
  function SourceKey(k: EntityKey): string {
    Decimal(KindCode(k.kind)) + "/" + k.id
  }

  /** Distinct entities have distinct source keys, whatever their ids contain. */
  lemma SourceKeyInjective(a: EntityKey, b: EntityKey)
    requires SourceKey(a) == SourceKey(b)
    ensures a == b
  {
    FirstSlash(Decimal(KindCode(a.kind)), a.id, Decimal(KindCode(b.kind)), b.id);
    DecimalValue(KindCode(a.kind));
    DecimalValue(KindCode(b.kind));
  }

  // ---------------------------------------------------------------- ordering the sources

  /** Higher preference first, then the lesser peer id. */
  predicate SourceLess(a: Source, b: Source) {
    if a.preference == b.preference then StrLess(a.peerId, b.peerId) else a.preference > b.preference
  }

  type SourceMap = map<string, Source>

  ghost predicate KeyedByPeer(m: SourceMap) {
    forall p | p in m :: m[p].peerId == p
  }

  lemma SourcesOrdered(m: SourceMap)
    requires KeyedByPeer(m)
    ensures WeakOrder(SourceLess, m.Values) && Separates(SourceLess, m.Values)
  {
    forall a, b | a in m.Values && b in m.Values
      ensures SourceLess(a, b) ==> !SourceLess(b, a)
      ensures a != b ==> SourceLess(a, b) || SourceLess(b, a)
    {
      StrLessTotal(a.peerId, b.peerId);
      if StrLess(a.peerId, b.peerId) { StrLessAsym(a.peerId, b.peerId); }
    }
    forall a, b, c | a in m.Values && b in m.Values && c in m.Values && !SourceLess(b, a) && !SourceLess(c, b)
      ensures !SourceLess(c, a)
    {
      if a.preference == b.preference == c.preference { StrAtMostTrans(a.peerId, b.peerId, c.peerId); }
    }
  }

  /** s lists the sources, each once, in order of preference. */
  ghost predicate Ranks(s: seq<Source>, m: SourceMap) {
    Elements(s) == m.Values && Distinct(s) && Sorted(SourceLess, s)
  }

  lemma RanksUnique(a: seq<Source>, b: seq<Source>, m: SourceMap)
    requires KeyedByPeer(m) && Ranks(a, m) && Ranks(b, m)
    ensures a == b
  {
    DistinctBag(a, b);
    SourcesOrdered(m);
    SortedUnique(SourceLess, a, b);
  }

  lemma ValuesWithout(m: SourceMap, p: string)
    requires p in m
    ensures m.Values == (m - {p}).Values + {m[p]}
  {
    forall v | v in m.Values ensures v in (m - {p}).Values + {m[p]} {
      var q :| q in m && m[q] == v;
      if q != p { assert q in m - {p} && (m - {p})[q] == v; }
    }
    forall v | v in (m - {p}).Values ensures v in m.Values {
      var q :| q in m - {p} && (m - {p})[q] == v;
    }
  }

  /** Lists a source map in any order. */
  ghost function SomeSources(m: SourceMap): (s: seq<Source>)
    requires KeyedByPeer(m)
    ensures Elements(s) == m.Values && Distinct(s)
    decreases m.Keys
  {
    if m == map[] then []
    else
      var p :| p in m;
      var rest := m - {p};
      assert rest.Keys == m.Keys - {p};
      var t := SomeSources(rest);
      ValuesWithout(m, p);
      assert Elements([m[p]] + t) == {m[p]} + Elements(t);
      assert m[p] !in Elements(t);
      [m[p]] + t
  }

  lemma SortRanks(s: seq<Source>, m: SourceMap)
    requires KeyedByPeer(m) && Elements(s) == m.Values && Distinct(s)
    ensures Ranks(Sort(SourceLess, s), m)
  {
    SourcesOrdered(m);
    SortSorts(SourceLess, s);
    SortPermutes(SourceLess, s);
    DistinctCounts(s);
    DistinctCounts(Sort(SourceLess, s));
  }

  /** The sources in order of preference. */
  ghost function Ranked(m: SourceMap): (s: seq<Source>)
    requires KeyedByPeer(m)
    ensures Ranks(s, m)
  {
    SortRanks(SomeSources(m), m);
    Sort(SourceLess, SomeSources(m))
  }

  /** Higher preference comes first, and among equals the lesser peer id. */
  lemma RankedOrder(m: SourceMap, i: nat, j: nat)
    requires KeyedByPeer(m) && i < j < |Ranked(m)|
    ensures var a, b := Ranked(m)[i], Ranked(m)[j];
            a.preference > b.preference || (a.preference == b.preference && StrLess(a.peerId, b.peerId))
  {
    var a, b := Ranked(m)[i], Ranked(m)[j];
    assert a in Elements(Ranked(m)) && b in Elements(Ranked(m));
    assert a != b && !SourceLess(b, a);
    SourcesOrdered(m);
    if a.preference == b.preference { StrLessTotal(a.peerId, b.peerId); }
  }

  lemma RankedNonempty(m: SourceMap)
    requires KeyedByPeer(m) && m != map[]
    ensures Ranked(m) != []
  {
    var p :| p in m;
    assert m[p] in m.Values;
    assert m[p] in Elements(Ranked(m));
  }

  /** Collects the sources in any order and sorts them (reconcile.go:61-70). */
  method Rank(m: SourceMap) returns (s: seq<Source>)
    requires KeyedByPeer(m)
    ensures s == Ranked(m)
  {
    var left := m.Keys;
    var found: seq<Source> := [];
    while left != {}
      invariant left <= m.Keys && Distinct(found)
      invariant forall x :: x in found <==> x in m.Values && x.peerId !in left
      decreases left
    {
      var p :| p in left;
      assert m[p] in m.Values && m[p] !in found;
      found := found + [m[p]];
      left := left - {p};
    }
    assert Elements(found) == m.Values;
    SortRanks(found, m);
    s := Sort(SourceLess, found);
    RanksUnique(s, Ranked(m), m);
  }

  /** Merges the ranked sources (reconcile.go:71-79). */
  method Canonicalize(ordered: seq<Source>) returns (e: Entity)
    requires ordered != []
    ensures e == Canonical(ordered)
  {
    e := ordered[0].value;
    var sourceIds: seq<string> := [];
    for i := 0 to |ordered|
      invariant sourceIds == PeerIds(ordered[..i])
    {
      sourceIds := sourceIds + [ordered[i].peerId];
    }
    assert ordered[..|ordered|] == ordered;
    for i := 1 to |ordered|
      invariant e == MergeUpTo(ordered, i)
    {
      e := MergeInto(e, ordered[i].value, Peers(ordered[0].peerId, ordered[i].peerId));
    }
    e := SetSources(e, sourceIds);
  }

  // ---------------------------------------------------------------- what the reconciler should hold

  predicate WellAddressed(a: Advertisement) {
    a.key.id != "" && a.peerId != "" && (a.withdraw || a.value.Some?)
  }

  /** The value of an advertisement belongs to its key. */
  predicate Honest(a: Advertisement) {
    a.value.Some? ==> OwnKey(a.value.value) == a.key
  }

  function Announce(m: SourceMap, a: Advertisement): SourceMap
    requires WellAddressed(a)
  {
    if a.withdraw then m - {a.peerId} else m[a.peerId := Source(a.peerId, a.preference, a.value.value)]
  }

  /** Each peer's latest un-withdrawn advertisement of an entity. */
  function Live(ads: seq<Advertisement>, k: EntityKey): SourceMap {
    if ads == [] then map[]
    else
      var n := |ads| - 1;
      var before := Live(ads[..n], k);
      if WellAddressed(ads[n]) && ads[n].key == k then Announce(before, ads[n]) else before
  }

  /** Advertisement i is the last that peer p made of entity k; an incomplete one does not count. */
  ghost predicate LastOf(ads: seq<Advertisement>, k: EntityKey, p: string, i: nat)
    requires i < |ads|
  {
    && Complete(ads[i]) && ads[i].key == k && ads[i].peerId == p
    && forall j | i < j < |ads| :: !(Complete(ads[j]) && ads[j].key == k && ads[j].peerId == p)
  }

  ghost predicate Complete(a: Advertisement) {
    a.key.id != "" && a.peerId != "" && (a.withdraw || a.value.Some?)
  }

  /** A peer is live for an entity exactly when its last advertisement of it is not withdrawn, and then with
      the preference and value of that one. */
  lemma {:induction false} LiveIsLast(ads: seq<Advertisement>, k: EntityKey, p: string, i: nat)
    requires i < |ads| && LastOf(ads, k, p, i)
    ensures p in Live(ads, k) <==> !ads[i].withdraw
    ensures !ads[i].withdraw ==> Live(ads, k)[p] == Source(p, ads[i].preference, ads[i].value.value)
    decreases |ads|
  {
    var n := |ads| - 1;
    if i < n {
      assert LastOf(ads[..n], k, p, i);
      LiveIsLast(ads[..n], k, p, i);
    }
  }

  lemma {:induction false} NeverLive(ads: seq<Advertisement>, k: EntityKey, p: string)
    requires forall i | 0 <= i < |ads| :: !(Complete(ads[i]) && ads[i].key == k && ads[i].peerId == p)
    ensures p !in Live(ads, k)
  {
    if ads != [] { NeverLive(ads[..|ads| - 1], k, p); }
  }

  predicate Touched(ads: seq<Advertisement>, k: EntityKey) {
    exists i :: 0 <= i < |ads| && WellAddressed(ads[i]) && ads[i].key == k
  }

  lemma {:induction false} LiveKeyed(ads: seq<Advertisement>, k: EntityKey)
    ensures KeyedByPeer(Live(ads, k))
  {
    if ads != [] { LiveKeyed(ads[..|ads| - 1], k); }
  }

  ghost predicate OfKind(m: SourceMap, k: EntityKey) {
    forall p | p in m :: OwnKey(m[p].value) == k
  }

  lemma {:induction false} LiveOfKind(ads: seq<Advertisement>, k: EntityKey)
    requires forall i | 0 <= i < |ads| :: Honest(ads[i])
    ensures OfKind(Live(ads, k), k)
  {
    if ads != [] { LiveOfKind(ads[..|ads| - 1], k); }
  }

  /** What an entity says apart from its revision, its times and a defaulted freshness. */
  function ContentMeta(m: Meta): Meta {
    m.(revision := 0, firstSeen := None, lastSeen := None,
       freshness := if m.freshness == FreshnessUnspecified then Active else m.freshness)
  }

  function Content(e: Entity): Entity {
    match e
    case NodeEntity(n) => NodeEntity(n.(meta := ContentMeta(n.meta)))
    case LinkEntity(l) => LinkEntity(l.(meta := ContentMeta(l.meta)))
    case PrefixEntity(p) => PrefixEntity(p.(meta := ContentMeta(p.meta)))
    case PeerEntity(p) => PeerEntity(p.(resourceVersion := 0))
    case DomainEntity(d) => DomainEntity(d.(revision := 0))
  }

  lemma StampKeepsContent(e: Entity, rev: uint64, now: Time)
    ensures Content(Stamped(e, rev, now)) == Content(e)
  {
  }

  // ---------------------------------------------------------------- the reconciler as steps

  type SourceTable = map<string, SourceMap>

  function At(table: SourceTable, k: EntityKey): SourceMap {
    if SourceKey(k) in table then table[SourceKey(k)] else map[]
  }

  function WithSources(table: SourceTable, k: EntityKey, m: SourceMap): SourceTable {
    if m == map[] then table - {SourceKey(k)} else table[SourceKey(k) := m]
  }

  /** The table holds exactly the live advertisements, with no empty entries. */
  ghost predicate Holds(table: SourceTable, ads: seq<Advertisement>) {
    forall k :: At(table, k) == Live(ads, k)
  }

  lemma StoreHolds(table: SourceTable, ads: seq<Advertisement>, a: Advertisement)
    requires Holds(table, ads) && WellAddressed(a)
    ensures Holds(WithSources(table, a.key, Announce(At(table, a.key), a)), ads + [a])
  {
    var table' := WithSources(table, a.key, Announce(At(table, a.key), a));
    assert (ads + [a])[..|ads|] == ads;
    forall k ensures At(table', k) == Live(ads + [a], k) {
      assert At(table, k) == Live(ads, k);
      if k != a.key && SourceKey(k) == SourceKey(a.key) { SourceKeyInjective(k, a.key); }
    }
  }

  /** The mutation an advertisement leads to: the canonical entity of the sources left, or a deletion
      when none is left. */
  ghost function Change(a: Advertisement, m: SourceMap): (r: Mutation)
    requires KeyedByPeer(m)
  {
    if m == map[] then Mutation(a.key, a.domainId, a.peerId, "last source withdrawn", true, None)
    else
      RankedNonempty(m);
      Mutation(a.key, a.domainId, a.peerId, "canonical topology reconciled", false, Some(Canonical(Ranked(m))))
  }

  lemma {:induction false} MergeKeepsKey(ordered: seq<Source>, k: EntityKey, n: nat)
    requires 1 <= n <= |ordered| && OwnKey(ordered[0].value) == k
    ensures OwnKey(MergeUpTo(ordered, n)) == k
  {
    if n > 1 { MergeKeepsKey(ordered, k, n - 1); }
  }

  lemma SourcesKeepKey(e: Entity, sources: seq<string>)
    ensures OwnKey(SetSources(e, sources)) == OwnKey(e)
  {
  }

  lemma TopOfKind(m: SourceMap, k: EntityKey)
    requires KeyedByPeer(m) && OfKind(m, k) && m != map[]
    ensures Ranked(m) != [] && forall i | 0 <= i < |Ranked(m)| :: OwnKey(Ranked(m)[i].value) == k
  {
    RankedNonempty(m);
    forall i | 0 <= i < |Ranked(m)| ensures OwnKey(Ranked(m)[i].value) == k {
      assert Ranked(m)[i] in Elements(Ranked(m));
      var p :| p in m && m[p] == Ranked(m)[i];
    }
  }

  lemma ChangeMatches(a: Advertisement, m: SourceMap)
    requires KeyedByPeer(m) && OfKind(m, a.key)
    ensures Matched(Change(a, m))
  {
    if m != map[] {
      TopOfKind(m, a.key);
      MergeKeepsKey(Ranked(m), a.key, |Ranked(m)|);
      SourcesKeepKey(MergeUpTo(Ranked(m), |Ranked(m)|), PeerIds(Ranked(m)));
    }
  }

  // ---------------------------------------------------------------- runs of advertisements

  /** What the store keeps of a change: the canonical entity with its stamp, or nothing. */
  ghost function Written(m: SourceMap, rev: uint64, now: Time): Option<Entity>
    requires KeyedByPeer(m)
  {
    if m == map[] then None else RankedNonempty(m); Some(Stamped(Canonical(Ranked(m)), rev, now))
  }

  lemma ChangeIsWritten(a: Advertisement, m: SourceMap, rev: uint64, now: Time)
    requires KeyedByPeer(m)
    ensures var change := Change(a, m);
            && change.key == a.key && (change.delete || change.value.Some?)
            && (if change.delete then None else Some(Stamped(change.value.value, rev, now))) == Written(m, rev, now)
  {
  }

  /** A committed change writes exactly that. */
  lemma ChangeWrites(w: World, a: Advertisement, m: SourceMap, now: Time)
    requires Inv(w) && w.s.revision < MAX_U64 && KeyedByPeer(m) && Acceptable(Change(a, m))
    ensures Applied(w, Change(a, m), now).s.mem == Put(w.s.mem, a.key, Written(m, w.s.revision + 1, now))
  {
    AppliedMem(w, Change(a, m), now);
    ChangeIsWritten(a, m, w.s.revision + 1, now);
  }

  /** The store accepts what an advertisement leads to. */
  predicate Lands(a: Advertisement) {
    WellAddressed(a) && !a.key.kind.UnknownKind?
  }

  /** From one state of the maps to the next, as far as entity k goes, by the last of these
      advertisements: when it is of k and its write succeeds, k is written as its live advertisements
      say, under some revision and time, and otherwise k stays. Anything else may change, since others
      write to the store too. */
  ghost predicate Reconciles(mem: Mem, mem': Mem, ads: seq<Advertisement>, ok: bool, k: EntityKey)
    requires ads != []
  {
    var a := ads[|ads| - 1];
    if Lands(a) && a.key == k && ok then
      KeyedByPeer(Live(ads, k)) &&
      exists rev: uint64, now: Time :: Get(mem', k) == Written(Live(ads, k), rev, now)
    else Get(mem', k) == Get(mem, k)
  }

  /** The states of the maps through a run of advertisements in which nobody else writes entity k, from
      any start; `oks` says which writes succeed. */
  ghost predicate IsRun(mems: seq<Mem>, ads: seq<Advertisement>, oks: seq<bool>, k: EntityKey) {
    && |mems| == |ads| + 1 == |oks| + 1
    && (forall i | 0 <= i < |ads| :: Honest(ads[i]))
    && (forall i | 0 <= i < |ads| :: Reconciles(mems[i], mems[i + 1], ads[..i + 1], oks[i], k))
  }

  lemma WriteReconciles(mem: Mem, ads: seq<Advertisement>, rev: uint64, now: Time)
    requires ads != [] && Lands(ads[|ads| - 1]) && KeyedByPeer(Live(ads, ads[|ads| - 1].key))
    ensures var k := ads[|ads| - 1].key;
            forall k' :: Reconciles(mem, Put(mem, k, Written(Live(ads, k), rev, now)), ads, true, k')
  {
  }

  lemma RefusalReconciles(mem: Mem, ads: seq<Advertisement>)
    requires ads != []
    ensures forall k :: Reconciles(mem, mem, ads, false, k)
  {
  }

  /** Another writer's commit to a different key may come after any step. */
  lemma OthersMayWrite(mem: Mem, mem': Mem, ads: seq<Advertisement>, ok: bool, k: EntityKey, other: EntityKey,
                       v: Option<Entity>)
    requires ads != [] && Reconciles(mem, mem', ads, ok, k) && other != k
    ensures Reconciles(mem, Put(mem', other, v), ads, ok, k)
  {
  }

  /** The last advertisement of an entity was written. */
  ghost predicate LastWritten(ads: seq<Advertisement>, oks: seq<bool>, k: EntityKey)
    requires |ads| == |oks|
  {
    if ads == [] then false
    else if WellAddressed(ads[|ads| - 1]) && ads[|ads| - 1].key == k then oks[|ads| - 1]
    else LastWritten(ads[..|ads| - 1], oks[..|ads| - 1], k)
  }

  lemma {:induction false} TouchedSettles(ads: seq<Advertisement>, oks: seq<bool>, k: EntityKey)
    requires |ads| == |oks| && Touched(ads, k) && forall i | 0 <= i < |oks| :: oks[i]
    ensures LastWritten(ads, oks, k)
    decreases |ads|
  {
    var n := |ads| - 1;
    if !(WellAddressed(ads[n]) && ads[n].key == k) {
      LiveUntouched(ads, k);
      TouchedSettles(ads[..n], oks[..n], k);
    }
  }

  /** What the store should hold for an entity, given its live advertisements: nothing when there are
      none, and otherwise their canonical merge, apart from revision, times and default freshness. */
  ghost predicate Agrees(stored: Option<Entity>, live: SourceMap)
    requires KeyedByPeer(live)
  {
    if live == map[] then stored == None
    else RankedNonempty(live); stored.Some? && Content(stored.value) == Content(Canonical(Ranked(live)))
  }

  lemma WrittenAgrees(m: SourceMap, rev: uint64, now: Time)
    requires KeyedByPeer(m)
    ensures Agrees(Written(m, rev, now), m)
  {
    if m != map[] {
      RankedNonempty(m);
      StampKeepsContent(Canonical(Ranked(m)), rev, now);
    }
  }

  lemma LiveUntouched(ads: seq<Advertisement>, k: EntityKey)
    requires ads != [] && !(WellAddressed(ads[|ads| - 1]) && ads[|ads| - 1].key == k)
    ensures Live(ads, k) == Live(ads[..|ads| - 1], k)
    ensures Touched(ads, k) ==> Touched(ads[..|ads| - 1], k)
  {
    if Touched(ads, k) {
      var i :| 0 <= i < |ads| && WellAddressed(ads[i]) && ads[i].key == k;
      assert ads[..|ads| - 1][i] == ads[i];
    }
  }

  lemma RunPrefix(mems: seq<Mem>, ads: seq<Advertisement>, oks: seq<bool>, k: EntityKey)
    requires IsRun(mems, ads, oks, k) && ads != []
    ensures IsRun(mems[..|ads|], ads[..|ads| - 1], oks[..|ads| - 1], k)
    ensures Reconciles(mems[|ads| - 1], mems[|ads|], ads, oks[|ads| - 1], k)
  {
    var n := |ads| - 1;
    forall i | 0 <= i < n
      ensures Reconciles(mems[..|ads|][i], mems[..|ads|][i + 1], ads[..n][..i + 1], oks[..n][i], k)
    {
      assert ads[..n][..i + 1] == ads[..i + 1];
      assert Reconciles(mems[i], mems[i + 1], ads[..i + 1], oks[i], k);
    }
    assert Reconciles(mems[n], mems[n + 1], ads[..n + 1], oks[n], k);
    assert ads[..n + 1] == ads;
  }

  /** Whatever other writes failed and whatever others wrote elsewhere, an entity whose own last write
      succeeded is in the store exactly when some peer's last advertisement of it is not withdrawn, and
      its content is the merge of those advertisements. */
  lemma {:induction false} StoreAgrees(mems: seq<Mem>, ads: seq<Advertisement>, oks: seq<bool>, k: EntityKey)
    requires IsRun(mems, ads, oks, k) && LastWritten(ads, oks, k) && !k.kind.UnknownKind?
    ensures KeyedByPeer(Live(ads, k)) && Agrees(Get(mems[|ads|], k), Live(ads, k))
    decreases |ads|
  {
    LiveKeyed(ads, k);
    RunPrefix(mems, ads, oks, k);
    var n := |ads| - 1;
    var a := ads[n];
    if WellAddressed(a) && a.key == k {
      var rev: uint64, now: Time :| Get(mems[n + 1], k) == Written(Live(ads, k), rev, now);
      WrittenAgrees(Live(ads, k), rev, now);
    } else {
      LiveUntouched(ads, k);
      StoreAgrees(mems[..n + 1], ads[..n], oks[..n], k);
    }
  }

  /** So two runs that leave the same live advertisements of an entity agree on its content. */
  lemma RunsAgree(mems: seq<Mem>, ads: seq<Advertisement>, oks: seq<bool>,
                  mems': seq<Mem>, ads': seq<Advertisement>, oks': seq<bool>, k: EntityKey)
    requires IsRun(mems, ads, oks, k) && IsRun(mems', ads', oks', k)
    requires LastWritten(ads, oks, k) && LastWritten(ads', oks', k) && !k.kind.UnknownKind?
    requires Live(ads, k) == Live(ads', k)
    ensures var e, e' := Get(mems[|ads|], k), Get(mems'[|ads'|], k);
            (e.None? <==> e'.None?) && (e.Some? ==> Content(e.value) == Content(e'.value))
  {
    StoreAgrees(mems, ads, oks, k);
    StoreAgrees(mems', ads', oks', k);
  }

  /** The stored entity of an advertised node, link or prefix, part by part: unmerged fields from the
      most preferred source, each merged field the first value set in order of preference, a conflict
      for exactly the values set that differ, every TLV key, and the peers in order. */
  lemma StoredParts(mems: seq<Mem>, ads: seq<Advertisement>, oks: seq<bool>, k: EntityKey)
    requires IsRun(mems, ads, oks, k) && LastWritten(ads, oks, k) && Live(ads, k) != map[]
    requires k.kind.NodeKind? || k.kind.LinkKind? || k.kind.PrefixKind?
    ensures KeyedByPeer(Live(ads, k))
    ensures IsMergeOf(Get(mems[|ads|], k), Ranked(Live(ads, k)), k.kind)
  {
    StoreAgrees(mems, ads, oks, k);
    LiveOfKind(ads, k);
    AgreesParts(Get(mems[|ads|], k), Live(ads, k), k);
  }

  ghost predicate IsMergeOf(stored: Option<Entity>, s: seq<Source>, kind: Kind) {
    stored.Some? && s != [] && IsCanonicalOf(stored.value, s, kind)
  }

  /** The conflicts of a stored entity are those the most preferred source came with and exactly one for
      each lower source and field whose value is set and differs from the stored one. */
  lemma StoredConflicts(stored: Option<Entity>, s: seq<Source>, kind: Kind, c: Conflict)
    requires IsMergeOf(stored, s, kind)
    ensures Wide(PartsOf(s), |Names(kind)|) && |Texts(stored.value)| == |Names(kind)|
    ensures c in Conflicts(stored.value) <==>
            c in Conflicts(s[0].value)
            || SomeRejected(Names(kind), PartsOf(s), Texts(stored.value), |s|, c)
  {
    AllRejectionsExact(Names(kind), PartsOf(s), Texts(stored.value), |s|, c);
  }

  lemma AgreesParts(stored: Option<Entity>, live: SourceMap, k: EntityKey)
    requires KeyedByPeer(live) && OfKind(live, k) && live != map[] && Agrees(stored, live)
    requires k.kind.NodeKind? || k.kind.LinkKind? || k.kind.PrefixKind?
    ensures IsMergeOf(stored, Ranked(live), k.kind)
  {
    TopOfKind(live, k);
    CanonicalParts(Ranked(live), stored.value, k.kind);
  }

  ghost predicate IsCanonicalOf(e: Entity, s: seq<Source>, kind: Kind)
    requires s != []
  {
    var names, ps := Names(kind), PartsOf(s);
    && KindOf(e) == kind && Wide(ps, |names|)
    && Content(Unmerged(e)) == Content(Unmerged(s[0].value))
    && Texts(e) == Finals(ps, |s|, |names|)
    && Conflicts(e) == Conflicts(s[0].value) + AllRejections(names, ps, Finals(ps, |s|, |names|), |s|)
    && Tlvs(s[0].value) <= Tlvs(e) && AddedOnce(Tlvs(e), |Tlvs(s[0].value)|) && TlvKeys(Tlvs(e)) == AllTlvKeys(ps, |s|)
    && Sources(e) == PeerIds(s)
  }

  lemma ContentKeepsParts(e: Entity, e': Entity)
    requires Content(e) == Content(e')
    ensures KindOf(e) == KindOf(e') && Texts(e) == Texts(e') && Conflicts(e) == Conflicts(e')
    ensures Tlvs(e) == Tlvs(e') && Sources(e) == Sources(e') && Content(Unmerged(e)) == Content(Unmerged(e'))
  {
  }

  lemma SetSourcesParts(e: Entity, sources: seq<string>)
    requires MetaOf(e).Some?
    ensures var r := SetSources(e, sources);
            && KindOf(r) == KindOf(e) && Texts(r) == Texts(e) && Conflicts(r) == Conflicts(e)
            && Tlvs(r) == Tlvs(e) && Unmerged(r) == Unmerged(e) && Sources(r) == sources
  {
  }

  lemma CanonicalParts(s: seq<Source>, e: Entity, kind: Kind)
    requires s != [] && OneKind(s, kind) && Names(kind) != []
    requires Content(e) == Content(Canonical(s))
    ensures IsCanonicalOf(e, s, kind)
  {
    PartsWide(s, kind);
    MergeUpToParts(s, kind, |s|);
    SetSourcesParts(MergeUpTo(s, |s|), PeerIds(s));
    ContentKeepsParts(e, Canonical(s));
    PartsMeaning(s, Names(kind), PartsOf(s), PartOf(s[0].peerId, MergeUpTo(s, |s|)));
  }

  lemma PartsMeaning(s: seq<Source>, names: seq<string>, ps: seq<Part>, r: Part)
    requires s != [] && ps == PartsOf(s) && Wide(ps, |names|) && r == MergeParts(names, ps, |s|)
    ensures r.unmerged == Unmerged(s[0].value) && r.texts == Finals(ps, |s|, |names|)
    ensures r.conflicts == Conflicts(s[0].value) + AllRejections(names, ps, Finals(ps, |s|, |names|), |s|)
    ensures Tlvs(s[0].value) <= r.tlvs && AddedOnce(r.tlvs, |Tlvs(s[0].value)|)
    ensures TlvKeys(r.tlvs) == AllTlvKeys(ps, |s|)
  {
    MergedTexts(names, ps, |s|);
    MergedConflicts(names, ps, |s|);
    MergedTlvLists(names, ps, |s|);
  }

  /** Decides what to write: the deletion when no source is left, else the canonical entity
      (reconcile.go:57-80). */
  method ChangeFor(a: Advertisement, m: SourceMap) returns (change: Mutation)
    requires KeyedByPeer(m)
    ensures change == Change(a, m)
  {
    if |m| == 0 {
      return Mutation(a.key, a.domainId, a.peerId, "last source withdrawn", true, None);
    }
    var ordered := Rank(m);
    RankedNonempty(m);
    var canonical := Canonicalize(ordered);
    change := Mutation(a.key, a.domainId, a.peerId, "canonical topology reconciled", false, Some(canonical));
  }

  /** A change that the store takes reconciles its entity and no other. */
  lemma AppliedReconciles(w: World, a: Advertisement, ads: seq<Advertisement>, now: Time)
    requires Inv(w) && w.s.revision < MAX_U64 && ads != [] && ads[|ads| - 1] == a && Lands(a)
    requires KeyedByPeer(Live(ads, a.key))
    ensures Acceptable(Change(a, Live(ads, a.key)))
    ensures forall k :: Reconciles(w.s.mem, Applied(w, Change(a, Live(ads, a.key)), now).s.mem, ads, true, k)
  {
    ChangeIsWritten(a, Live(ads, a.key), w.s.revision + 1, now);
    ChangeWrites(w, a, Live(ads, a.key), now);
    WriteReconciles(w.s.mem, ads, w.s.revision + 1, now);
  }

  /** The event of a reconciled advertisement: on its entity, from its domain and peer, with the reason. */
  ghost predicate Told(e: Event, a: Advertisement, m: SourceMap) {
    && e.key == a.key && e.domainId == a.domainId && e.sourcePeer == a.peerId
    && (m == map[] ==> e.reason == "last source withdrawn" && e.after.None?)
    && (m != map[] ==> e.reason == "canonical topology reconciled" && e.after.Some?)
  }

  // ---------------------------------------------------------------- the reconciler object

  class Reconciler {
    var sources: SourceTable
    const store: Stores.Store
    // Every advertisement accepted so far, for the specification only.
    ghost var ads: seq<Advertisement>

    ghost predicate Valid()
      reads this, store
    {
      && store.Valid() && Holds(sources, ads)
      && forall i | 0 <= i < |ads| :: Honest(ads[i])
    }

    constructor (store: Stores.Store)
      requires store.Valid()
      ensures Valid() && this.store == store && ads == []
    {
      this.store := store;
      sources, ads := map[], [];
    }

    /** Apply: replaces or withdraws one peer's advertisement and writes the outcome to the store. */
    method Apply(a: Advertisement, now: Time, live: bool, commits: bool) returns (out: Outcome)
      requires Valid() && Honest(a) && !store.stuck
      modifies this, store
      ensures out.Refused? || old(store.revision) < MAX_U64 ==> Valid()
      ensures WellAddressed(a) ==> ads == old(ads) + [a]
      ensures !WellAddressed(a) ==> out.Refused? && ads == old(ads) && sources == old(sources)
      ensures out.Committed? <==> a.key.id != "" && a.peerId != "" && (a.withdraw || a.value.Some?)
                                  && live && commits && !a.key.kind.UnknownKind?
      ensures out.Committed? ==> Told(out.event, a, Live(ads, a.key))
      ensures out.Committed? && old(store.revision) < MAX_U64 ==>
                KeyedByPeer(Live(ads, a.key)) && Acceptable(Change(a, Live(ads, a.key)))
                && store.View() == Applied(old(store.View()), Change(a, Live(ads, a.key)), now)
      ensures WellAddressed(a) && (out.Refused? || old(store.revision) < MAX_U64) ==>
                forall k :: Reconciles(old(store.mem), store.mem, ads, out.Committed?, k)
      ensures out.Refused? ==> store.View() == old(store.View())
    {
      if a.key.id == "" || a.peerId == "" { return Refused; }
      if !a.withdraw && a.value.None? { return Refused; }
      var m := Record(a);
      out := Land(a, m, now, live, commits);
    }

    /** Writes what the live advertisements of an entity call for (reconcile.go:57-80). */
    method Land(a: Advertisement, m: SourceMap, now: Time, live: bool, commits: bool) returns (out: Outcome)
      requires store.Valid() && !store.stuck && KeyedByPeer(m) && OfKind(m, a.key) && WellAddressed(a)
      requires ads != [] && ads[|ads| - 1] == a && m == Live(ads, a.key)
      modifies store
      ensures out.Refused? || old(store.revision) < MAX_U64 ==> store.Valid()
      ensures out.Committed? <==> live && commits && !a.key.kind.UnknownKind?
      ensures out.Committed? ==> Told(out.event, a, m)
      ensures out.Committed? && old(store.revision) < MAX_U64 ==>
                Acceptable(Change(a, m)) && store.View() == Applied(old(store.View()), Change(a, m), now)
      ensures out.Refused? || old(store.revision) < MAX_U64 ==>
                forall k :: Reconciles(old(store.mem), store.mem, ads, out.Committed?, k)
      ensures out.Refused? ==> store.View() == old(store.View())
    {
      ChangeMatches(a, m);
      var change := ChangeFor(a, m);
      if Lands(a) && store.revision < MAX_U64 { AppliedReconciles(store.View(), a, ads, now); }
      RefusalReconciles(store.mem, ads);
      out := store.Apply(change, now, live, commits);
    }

    /** Updates the table of sources; an entity left without any loses its entry (reconcile.go:45-58). */
    method Record(a: Advertisement) returns (m: SourceMap)
      requires Holds(sources, ads) && (forall i | 0 <= i < |ads| :: Honest(ads[i])) && Honest(a) && WellAddressed(a)
      modifies this`sources, this`ads
      ensures ads == old(ads) + [a] && Holds(sources, ads) && forall i | 0 <= i < |ads| :: Honest(ads[i])
      ensures m == Live(ads, a.key) && KeyedByPeer(m) && OfKind(m, a.key)
    {
      var key := SourceKey(a.key);
      m := if key in sources then sources[key] else map[];
      StoreHolds(sources, ads, a);
      if a.withdraw {
        m := m - {a.peerId};
      } else {
        m := m[a.peerId := Source(a.peerId, a.preference, a.value.value)];
      }
      sources := if m == map[] then sources - {key} else sources[key := m];
      ads := ads + [a];
      assert At(sources, a.key) == Live(ads, a.key);
      LiveKeyed(ads, a.key);
      LiveOfKind(ads, a.key);
    }
  }
}
