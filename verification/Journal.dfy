/** Entities under revision control and the journal of their changes
    (internal/store/store.go:43-51, 256-284, 462-505). */
module Journal {
  import opened Entities

  /** The proto enum; the unspecified kind is used for domains. */
  datatype Kind = DomainKind | NodeKind | LinkKind | PrefixKind | PeerKind | UnknownKind(code: nat)

  datatype EntityKey = EntityKey(kind: Kind, id: string)

  datatype Entity =
    | NodeEntity(node: Node)
    | LinkEntity(link: Link)
    | PrefixEntity(prefix: Prefix)
    | PeerEntity(peer: Peer)
    | DomainEntity(domain: Domain)

  function KindOf(e: Entity): Kind {
    match e
    case NodeEntity(_) => NodeKind
    case LinkEntity(_) => LinkKind
    case PrefixEntity(_) => PrefixKind
    case PeerEntity(_) => PeerKind
    case DomainEntity(_) => DomainKind
  }

  function OwnId(e: Entity): string {
    match e
    case NodeEntity(n) => n.meta.id
    case LinkEntity(l) => l.meta.id
    case PrefixEntity(p) => p.meta.id
    case PeerEntity(p) => p.id
    case DomainEntity(d) => d.id
  }

  function OwnKey(e: Entity): EntityKey {
    EntityKey(KindOf(e), OwnId(e))
  }

  /** The revision an entity says it was last written at. */
  function Stamp(e: Entity): uint64 {
    match e
    case NodeEntity(n) => n.meta.revision
    case LinkEntity(l) => l.meta.revision
    case PrefixEntity(p) => p.meta.revision
    case PeerEntity(p) => p.resourceVersion
    case DomainEntity(d) => d.revision
  }

  /** ensureMeta. */
  function StampMeta(m: Meta, rev: uint64, now: Time): Meta {
    m.(revision := rev,
       lastSeen := Some(now),
       firstSeen := if m.firstSeen.None? then Some(now) else m.firstSeen,
       freshness := if m.freshness == FreshnessUnspecified then Active else m.freshness)
  }

  /** setRevision. */
  function Stamped(e: Entity, rev: uint64, now: Time): (r: Entity)
    ensures OwnKey(r) == OwnKey(e) && Stamp(r) == rev
  {
    match e
    case NodeEntity(n) => NodeEntity(n.(meta := StampMeta(n.meta, rev, now)))
    case LinkEntity(l) => LinkEntity(l.(meta := StampMeta(l.meta, rev, now)))
    case PrefixEntity(p) => PrefixEntity(p.(meta := StampMeta(p.meta, rev, now)))
    case PeerEntity(p) => PeerEntity(p.(resourceVersion := rev))
    case DomainEntity(d) => DomainEntity(d.(revision := rev))
  }

  /** The five current-state maps, as one map keyed by kind and id. */
  type Mem = map<EntityKey, Entity>

  function Get(mem: Mem, k: EntityKey): Option<Entity> {
    if k in mem then Some(mem[k]) else None
  }

  function Put(mem: Mem, k: EntityKey, v: Option<Entity>): (r: Mem)
    ensures Get(r, k) == v && forall k' | k' != k :: Get(r, k') == Get(mem, k')
  {
    if v.Some? then mem[k := v.value] else mem - {k}
  }

  /** A committed change: an upsert has an after-value, a delete has none. */
  datatype Event = Event(revision: uint64, observed: Time, key: EntityKey, domainId: string,
                         sourcePeer: string, before: Option<Entity>, after: Option<Entity>, reason: string)

  function Redo(mem: Mem, e: Event): Mem {
    Put(mem, e.key, e.after)
  }

  /** undoEntity. */
  function Undo(mem: Mem, e: Event): Mem {
    Put(mem, e.key, e.before)
  }

  function RedoAll(mem: Mem, events: seq<Event>): Mem
    decreases |events|
  {
    if events == [] then mem else Redo(RedoAll(mem, events[..|events| - 1]), events[|events| - 1])
  }

  /** Undoes events newest first. */
  function UndoAll(mem: Mem, events: seq<Event>): Mem
    decreases |events|
  {
    if events == [] then mem else UndoAll(Undo(mem, events[|events| - 1]), events[..|events| - 1])
  }

  /** The maps as they were at revision r. */
  function StateAt(log: seq<Event>, r: nat): Mem
    requires r <= |log|
  {
    RedoAll(map[], log[..r])
  }

  /** A faithful log: revisions count from one, each event records what it replaced, and each
      after-value belongs to its key and carries its revision. */
  ghost predicate Faithful(log: seq<Event>) {
    forall i | 0 <= i < |log| :: FaithfulAt(log, i)
  }

  ghost predicate FaithfulAt(log: seq<Event>, i: nat)
    requires i < |log|
  {
    && log[i].revision == i + 1
    && log[i].before == Get(StateAt(log, i), log[i].key)
    && !log[i].key.kind.UnknownKind? && log[i].key.id != ""
    && (log[i].after.Some? ==> OwnKey(log[i].after.value) == log[i].key && Stamp(log[i].after.value) == i + 1)
  }

  lemma MemEqual(a: Mem, b: Mem)
    requires forall k :: Get(a, k) == Get(b, k)
    ensures a == b
  {
    forall k ensures k in a <==> k in b {
      assert Get(a, k) == Get(b, k);
    }
    forall k | k in a ensures a[k] == b[k] {
      assert Get(a, k) == Get(b, k);
    }
  }

  lemma UndoRedo(mem: Mem, e: Event)
    requires e.before == Get(mem, e.key)
    ensures Undo(Redo(mem, e), e) == mem
  {
    MemEqual(Undo(Redo(mem, e), e), mem);
  }

  lemma StateStep(log: seq<Event>, r: nat)
    requires r < |log|
    ensures StateAt(log, r + 1) == Redo(StateAt(log, r), log[r])
  {
    assert log[..r + 1][..r] == log[..r];
  }

  /** Undoing the events after revision r, newest first, restores the maps of revision r. */
  lemma {:induction false} UndoReaches(log: seq<Event>, r: nat, n: nat)
    requires r <= n <= |log| && Faithful(log)
    ensures UndoAll(StateAt(log, n), log[r..n]) == StateAt(log, r)
    decreases n
  {
    if r < n {
      assert FaithfulAt(log, n - 1);
      StateStep(log, n - 1);
      UndoRedo(StateAt(log, n - 1), log[n - 1]);
      assert log[r..n][..n - r - 1] == log[r..n - 1] && log[r..n][n - r - 1] == log[n - 1];
      UndoReaches(log, r, n - 1);
    }
  }

  /** Replaying the events in (lo, hi] on the maps of revision lo yields the maps of revision hi. */
  lemma {:induction false} RedoReaches(log: seq<Event>, lo: nat, hi: nat)
    requires lo <= hi <= |log|
    ensures RedoAll(StateAt(log, lo), log[lo..hi]) == StateAt(log, hi)
    decreases hi
  {
    var events := log[lo..hi];
    if lo < hi {
      StateStep(log, hi - 1);
      RedoReaches(log, lo, hi - 1);
      assert events[..|events| - 1] == log[lo..hi - 1] && events[|events| - 1] == log[hi - 1];
    }
  }

  /** Earlier maps do not depend on later events. */
  lemma StateExtends(log: seq<Event>, more: seq<Event>, r: nat)
    requires r <= |log|
    ensures StateAt(log + more, r) == StateAt(log, r)
  {
    assert (log + more)[..r] == log[..r];
  }

  /** The revision of the last event that touched a key, zero if none did. */
  function LastTouch(log: seq<Event>, k: EntityKey): (r: nat)
    ensures r <= |log|
    ensures r > 0 ==> log[r - 1].key == k
    ensures forall i | r <= i < |log| :: log[i].key != k
  {
    if log == [] then 0
    else if log[|log| - 1].key == k then |log|
    else LastTouch(log[..|log| - 1], k)
  }

  /** What a key holds is the after-value of the last event that touched it. */
  lemma {:induction false} HoldsLastTouch(log: seq<Event>, k: EntityKey)
    ensures var r := LastTouch(log, k);
            Get(RedoAll(map[], log), k) == if r == 0 then None else log[r - 1].after
  {
    if log != [] {
      HoldsLastTouch(log[..|log| - 1], k);
    }
  }

  /** Every stored entity sits under its own key and carries the revision of the last mutation that
      touched it. */
  lemma StampIsLastTouch(log: seq<Event>, k: EntityKey)
    requires Faithful(log) && k in StateAt(log, |log|)
    ensures Stamp(StateAt(log, |log|)[k]) == LastTouch(log, k)
    ensures OwnKey(StateAt(log, |log|)[k]) == k && !k.kind.UnknownKind? && k.id != ""
    ensures 1 <= LastTouch(log, k) <= |log|
  {
    HoldsLastTouch(log, k);
    assert log[..|log|] == log;
    var r := LastTouch(log, k);
    assert FaithfulAt(log, r - 1);
  }

  /** One more event keeps the log faithful. */
  lemma FaithfulMore(log: seq<Event>, e: Event)
    requires Faithful(log) && FaithfulAt(log + [e], |log|)
    ensures Faithful(log + [e])
  {
    forall i | 0 <= i < |log| ensures FaithfulAt(log + [e], i) {
      assert FaithfulAt(log, i);
      StateExtends(log, [e], i);
    }
  }

  lemma FaithfulPrefix(log: seq<Event>, n: nat)
    requires Faithful(log) && n <= |log|
    ensures Faithful(log[..n]) && StateAt(log[..n], n) == StateAt(log, n)
  {
    assert log[..n][..n] == log[..n];
    forall i | 0 <= i < n ensures FaithfulAt(log[..n], i) {
      assert FaithfulAt(log, i);
      assert log[..n][..i] == log[..i];
    }
  }

  // ---------------------------------------------------------------- telling revisions apart

  /** No entity of a revision carries a later one, so a later stamp gives a wrong answer away. */
  lemma StampsAtMost(log: seq<Event>, r: nat, k: EntityKey)
    requires Faithful(log) && r <= |log| && k in StateAt(log, r)
    ensures Stamp(StateAt(log, r)[k]) == LastTouch(log[..r], k) <= r
  {
    FaithfulPrefix(log, r);
    StampIsLastTouch(log[..r], k);
  }

  /** Nothing touched since revision r was there then or is there now. */
  ghost predicate LeftNoTrace(log: seq<Event>, r: nat)
    requires r <= |log|
  {
    forall i | r <= i < |log| :: log[i].key !in StateAt(log, r) && log[i].key !in StateAt(log, |log|)
  }

  lemma {:induction false} UntouchedKeeps(log: seq<Event>, r: nat, n: nat, k: EntityKey)
    requires r <= n <= |log| && forall i | r <= i < n :: log[i].key != k
    ensures Get(StateAt(log, n), k) == Get(StateAt(log, r), k)
    decreases n
  {
    if r < n {
      StateStep(log, n - 1);
      UntouchedKeeps(log, r, n - 1, k);
    }
  }

  /** A key holds the same at two revisions exactly when nothing touched it in between, or it was
      absent at both: stamps never repeat, so an entity written since is not the one that was there. */
  lemma SameValueExactly(log: seq<Event>, r: nat, n: nat, k: EntityKey)
    requires Faithful(log) && r <= n <= |log|
    ensures Get(StateAt(log, r), k) == Get(StateAt(log, n), k) <==>
            forall j | r <= j < n && log[j].key == k :: k !in StateAt(log, r) && k !in StateAt(log, n)
  {
    if forall j | r <= j < n :: log[j].key != k {
      UntouchedKeeps(log, r, n, k);
    } else if k in StateAt(log, r) && k in StateAt(log, n) {
      StampsAtMost(log, r, k);
      StampsAtMost(log, n, k);
      var j :| r <= j < n && log[j].key == k;
      assert log[..n][j].key == k;
    }
  }

  /** The maps of revision r are those of now exactly when what happened since left no trace. */
  lemma SameStateExactly(log: seq<Event>, r: nat)
    requires Faithful(log) && r <= |log|
    ensures StateAt(log, r) == StateAt(log, |log|) <==> LeftNoTrace(log, r)
  {
    var before, now := StateAt(log, r), StateAt(log, |log|);
    forall k ensures Get(before, k) == Get(now, k) <==>
                     forall j | r <= j < |log| && log[j].key == k :: k !in before && k !in now
    {
      SameValueExactly(log, r, |log|, k);
    }
    if LeftNoTrace(log, r) { MemEqual(before, now); }
    if before == now {
      forall i | r <= i < |log| ensures log[i].key !in before && log[i].key !in now {
        assert Get(before, log[i].key) == Get(now, log[i].key);
      }
    }
  }
}
