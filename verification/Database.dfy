/** The embedded database: an ordered key-value map whose batches commit atomically, and the scans
    the store runs over it (internal/store/store.go:91-181, 517-552). */
module Database {
  import opened Orders
  import opened Sorting
  import opened Entities
  import opened Keys
  import opened Journal

  datatype Cell = EntityCell(entity: Entity) | EventCell(event: Event) | RevisionCell(revision: uint64)

  type Db = map<string, Cell>

  const META_KEY := "meta/revision"

  const KINDS: seq<Kind> := [DomainKind, NodeKind, LinkKind, PrefixKind, PeerKind]

  function KindPrefix(kind: Kind): string {
    match kind
    case DomainKind => "domain/"
    case NodeKind => "node/"
    case LinkKind => "link/"
    case PrefixKind => "prefix/"
    case PeerKind => "peer/"
    case UnknownKind(_) => ""
  }

  /** Where an entity is stored. */
  function DbKey(k: EntityKey): string {
    KindPrefix(k.kind) + k.id
  }

  function Read(db: Db, x: string): Option<Cell> {
    if x in db then Some(db[x]) else None
  }

  // ---------------------------------------------------------------- disjoint key spaces

  lemma PrefixesApart(a: Kind, b: Kind, x: string)
    requires !a.UnknownKind? && !b.UnknownKind?
    requires KindPrefix(a) <= x && KindPrefix(b) <= x
    ensures a == b
  {
    assert x[0] == KindPrefix(a)[0] == KindPrefix(b)[0];
    assert x[1] == KindPrefix(a)[1] == KindPrefix(b)[1];
  }

  lemma PrefixOfKey(k: EntityKey)
    ensures KindPrefix(k.kind) <= DbKey(k) && DbKey(k)[|KindPrefix(k.kind)|..] == k.id
  {
  }

  /** Distinct entities have distinct keys. */
  lemma DbKeyInjective(k: EntityKey, k': EntityKey)
    requires !k.kind.UnknownKind? && !k'.kind.UnknownKind? && DbKey(k) == DbKey(k')
    ensures k == k'
  {
    PrefixOfKey(k);
    PrefixOfKey(k');
    PrefixesApart(k.kind, k'.kind, DbKey(k));
  }

  /** Entities, events and the revision counter never share a key. */
  lemma KeySpacesApart(k: EntityKey, r: uint64)
    requires !k.kind.UnknownKind?
    ensures DbKey(k) != EventKey(r) && DbKey(k) != META_KEY && EventKey(r) != META_KEY
    ensures !(EVENT_PREFIX <= DbKey(k)) && !(EVENT_PREFIX <= META_KEY)
  {
    PrefixOfKey(k);
    assert DbKey(k)[0] == KindPrefix(k.kind)[0] != EVENT_PREFIX[0];
    assert DbKey(k)[0] != META_KEY[0] && META_KEY[0] != EVENT_PREFIX[0] == EventKey(r)[0];
  }

  /** How the keys read. */
  lemma KeyForms(id: string)
    ensures DbKey(EntityKey(DomainKind, id)) == "domain/" + id && DbKey(EntityKey(NodeKind, id)) == "node/" + id
    ensures DbKey(EntityKey(LinkKind, id)) == "link/" + id && DbKey(EntityKey(PrefixKind, id)) == "prefix/" + id
    ensures DbKey(EntityKey(PeerKind, id)) == "peer/" + id && META_KEY == "meta/revision"
  {
  }

  lemma EventKeyForm(r: uint64)
    ensures EventKey(r)[..6] == "event/" && |EventKey(r)| == 26 && ParseUint(EventKey(r)[6..]) == Some(r)
  {
    EventKeyParses(r);
  }

  // ---------------------------------------------------------------- what the database holds

  function ToCell(e: Option<Entity>): Option<Cell> {
    if e.Some? then Some(EntityCell(e.value)) else None
  }

  /** The entity keys hold exactly the current maps. */
  ghost predicate EntitiesHold(db: Db, mem: Mem) {
    forall k: EntityKey | !k.kind.UnknownKind? :: Read(db, DbKey(k)) == ToCell(Get(mem, k))
  }

  function EventAt(log: seq<Event>, first: nat, r: nat): Option<Cell> {
    if 1 <= r <= |log| && first <= r then Some(EventCell(log[r - 1])) else None
  }

  /** The event keys hold exactly the log from revision `first` on. */
  ghost predicate EventsHold(db: Db, log: seq<Event>, first: nat) {
    && 1 <= first <= |log| + 1 && |log| <= MAX_U64
    && (forall r: uint64 :: Read(db, EventKey(r)) == EventAt(log, first, r))
    && (forall x | x in db && EVENT_PREFIX <= x :: exists r: uint64 :: x == EventKey(r))
  }

  ghost predicate RevisionHolds(db: Db, n: nat) {
    if n == 0 then META_KEY !in db else META_KEY in db && n <= MAX_U64 && db[META_KEY] == RevisionCell(n)
  }

  // ---------------------------------------------------------------- ordered scans

  ghost function SomeOrder(s: set<string>): (r: seq<string>)
    ensures Elements(r) == s && Distinct(r)
  {
    if s == {} then []
    else
      var x :| x in s;
      var t := SomeOrder(s - {x});
      assert x !in Elements(t);
      assert Elements([x] + t) == {x} + Elements(t);
      [x] + t
  }

  /** The keys of a set in byte order. */
  ghost function Walk(s: set<string>): (r: seq<string>)
    ensures Walks(r, s)
  {
    var t := SomeOrder(s);
    StringsOrdered(Elements(t));
    SortSorts(StrLess, t);
    SortPermutes(StrLess, t);
    DistinctCounts(t);
    DistinctCounts(Sort(StrLess, t));
    Sort(StrLess, t)
  }

  ghost function RangeKeys(db: Db, lo: string, hi: string): set<string> {
    set x | x in db && InRange(x, lo, hi)
  }

  /** A database iterator over [lo, hi). */
  method Iterate(db: Db, lo: string, hi: string) returns (keys: seq<string>)
    ensures keys == Walk(RangeKeys(db, lo, hi))
  {
    var left := db.Keys;
    var found: seq<string> := [];
    while left != {}
      invariant left <= db.Keys
      invariant Elements(found) == RangeKeys(db, lo, hi) - left && Distinct(found)
      decreases left
    {
      var x :| x in left;
      left := left - {x};
      if InRange(x, lo, hi) {
        assert x !in Elements(found);
        assert Elements(found + [x]) == Elements(found) + {x};
        found := found + [x];
      }
    }
    keys := Sort(StrLess, found);
    StringsOrdered(Elements(found));
    SortSorts(StrLess, found);
    SortPermutes(StrLess, found);
    DistinctCounts(found);
    DistinctCounts(keys);
    WalksUnique(keys, Walk(RangeKeys(db, lo, hi)), RangeKeys(db, lo, hi));
  }

  // ---------------------------------------------------------------- scans of the journal

  /** The keys of the revisions lo..hi-1, in order. */
  function EventKeys(lo: nat, hi: nat): (r: seq<string>)
    requires lo <= hi <= MAX_U64 + 1
    ensures |r| == hi - lo && forall i | 0 <= i < hi - lo :: r[i] == EventKey(lo + i)
  {
    seq(hi - lo, i requires 0 <= i < hi - lo => EventKey(lo + i))
  }

  lemma EventKeyBefore(a: uint64, b: uint64)
    requires a < b
    ensures EventKey(a) != EventKey(b) && !StrLess(EventKey(b), EventKey(a))
  {
    EventKeyOrder(a, b);
    EventKeyOrder(b, a);
  }

  lemma EventKeysWalk(lo: nat, hi: nat)
    requires lo <= hi <= MAX_U64 + 1
    ensures Walks(EventKeys(lo, hi), Elements(EventKeys(lo, hi)))
  {
    var s := EventKeys(lo, hi);
    forall i: nat, j: nat | i < j < |s| ensures s[i] != s[j] && !StrLess(s[j], s[i]) {
      EventKeyBefore(lo + i, lo + j);
    }
  }

  /** A key range that contains the revisions a..b and lies within the event keys. */
  ghost predicate Spans(lower: string, upper: string, a: nat, b: nat) {
    && (forall r: uint64 :: InRange(EventKey(r), lower, upper) <==> a <= r <= b)
    && (forall x | InRange(x, lower, upper) :: EVENT_PREFIX <= x)
  }

  /** The retained revisions in a..b. */
  function WindowLo(log: seq<Event>, first: nat, a: nat): (r: nat) {
    if first <= a then a else first
  }

  function WindowHi(log: seq<Event>, first: nat, a: nat, b: nat): (r: nat)
    ensures WindowLo(log, first, a) <= r
  {
    var hi := if b <= |log| then b + 1 else |log| + 1;
    if hi < WindowLo(log, first, a) then WindowLo(log, first, a) else hi
  }

  /** A scan over the keys of a..b walks exactly the retained revisions among them, in order. */
  lemma WalkWindow(db: Db, log: seq<Event>, first: nat, lower: string, upper: string, a: nat, b: nat)
    requires EventsHold(db, log, first) && Spans(lower, upper, a, b)
    ensures Walk(RangeKeys(db, lower, upper)) == WindowKeys(log, first, a, b)
  {
    var keys := WindowKeys(log, first, a, b);
    WindowElements(db, log, first, lower, upper, a, b);
    var lo, hi := WindowLo(log, first, a), WindowHi(log, first, a, b);
    if lo != hi { EventKeysWalk(lo, hi); }
    WalksUnique(keys, Walk(RangeKeys(db, lower, upper)), RangeKeys(db, lower, upper));
  }

  function WindowKeys(log: seq<Event>, first: nat, a: nat, b: nat): seq<string>
    requires first <= |log| + 1 <= MAX_U64 + 1
  {
    var lo, hi := WindowLo(log, first, a), WindowHi(log, first, a, b);
    if lo == hi then [] else EventKeys(lo, hi)
  }

  lemma WindowElements(db: Db, log: seq<Event>, first: nat, lower: string, upper: string, a: nat, b: nat)
    requires EventsHold(db, log, first) && Spans(lower, upper, a, b)
    ensures Elements(WindowKeys(log, first, a, b)) == RangeKeys(db, lower, upper)
  {
    var keys := WindowKeys(log, first, a, b);
    forall x | x in RangeKeys(db, lower, upper) ensures x in keys {
      OnlyWindow(db, log, first, lower, upper, a, b, x);
    }
    forall i | 0 <= i < |keys| ensures keys[i] in RangeKeys(db, lower, upper) {
      WindowKeyStored(db, log, first, lower, upper, a, b, i);
    }
  }

  lemma WindowKeyStored(db: Db, log: seq<Event>, first: nat, lower: string, upper: string, a: nat, b: nat, i: nat)
    requires EventsHold(db, log, first) && Spans(lower, upper, a, b) && i < |WindowKeys(log, first, a, b)|
    ensures WindowKeys(log, first, a, b)[i] in RangeKeys(db, lower, upper)
  {
    InWindow(db, log, first, lower, upper, a, b, WindowLo(log, first, a) + i);
  }

  lemma OnlyWindow(db: Db, log: seq<Event>, first: nat, lower: string, upper: string, a: nat, b: nat, x: string)
    requires EventsHold(db, log, first) && Spans(lower, upper, a, b) && x in RangeKeys(db, lower, upper)
    ensures var lo, hi := WindowLo(log, first, a), WindowHi(log, first, a, b);
            lo < hi <= MAX_U64 + 1 && x in EventKeys(lo, hi)
  {
    var lo, hi := WindowLo(log, first, a), WindowHi(log, first, a, b);
    var r: uint64 :| x == EventKey(r);
    assert Read(db, EventKey(r)) == EventAt(log, first, r);
    assert lo <= r < hi;
    assert EventKeys(lo, hi)[r - lo] == x;
  }

  lemma InWindow(db: Db, log: seq<Event>, first: nat, lower: string, upper: string, a: nat, b: nat, r: uint64)
    requires EventsHold(db, log, first) && Spans(lower, upper, a, b)
    requires WindowLo(log, first, a) <= r < WindowHi(log, first, a, b)
    ensures EventKey(r) in RangeKeys(db, lower, upper) && db[EventKey(r)] == EventCell(log[r - 1])
  {
    assert Read(db, EventKey(r)) == EventAt(log, first, r);
    assert InRange(EventKey(r), lower, upper);
  }

  lemma EventRangeUpper(b: uint64)
    ensures StrLess(EventKey(b), PrefixEnd(EVENT_PREFIX)) && StrAtMost(EVENT_PREFIX, EventKey(b))
  {
    PrefixRange(EVENT_PREFIX, EventKey(b));
  }

  /** The upper bound of a scan up to revision b, where zero and the largest revision mean no bound. */
  function UpperKey(before: uint64): string {
    if before != 0 && before != MAX_U64 then EventKey(before + 1) else PrefixEnd(EVENT_PREFIX)
  }

  function UpperRevision(before: uint64): uint64 {
    if before == 0 then MAX_U64 else before
  }

  lemma BetweenEvents(a: uint64, before: uint64, x: string)
    requires InRange(x, EventKey(a), UpperKey(before))
    ensures EVENT_PREFIX <= x
  {
    EventRangeUpper(a);
    StrAtMostTrans(EVENT_PREFIX, EventKey(a), x);
    if before != 0 && before != MAX_U64 {
      EventRangeUpper(before + 1);
      StrLessTrans(x, EventKey(before + 1), PrefixEnd(EVENT_PREFIX));
    }
    PrefixRange(EVENT_PREFIX, x);
  }

  lemma EventInRange(a: uint64, before: uint64, r: uint64)
    ensures InRange(EventKey(r), EventKey(a), UpperKey(before)) <==> a <= r <= UpperRevision(before)
  {
    EventKeyOrder(r, a);
    if before != 0 && before != MAX_U64 {
      EventKeyOrder(r, before + 1);
    } else {
      EventRangeUpper(r);
    }
  }

  /** A scan between event keys covers exactly the revisions between them. */
  lemma EventKeysSpan(a: uint64, before: uint64)
    ensures Spans(EventKey(a), UpperKey(before), a, UpperRevision(before))
  {
    forall r: uint64 ensures InRange(EventKey(r), EventKey(a), UpperKey(before)) <==> a <= r <= UpperRevision(before) {
      EventInRange(a, before, r);
    }
    forall x | InRange(x, EventKey(a), UpperKey(before)) ensures EVENT_PREFIX <= x {
      BetweenEvents(a, before, x);
    }
  }

  lemma WholeSpan()
    ensures Spans(EVENT_PREFIX, PrefixEnd(EVENT_PREFIX), 0, MAX_U64)
  {
    forall r: uint64 ensures InRange(EventKey(r), EVENT_PREFIX, PrefixEnd(EVENT_PREFIX)) {
      EventRangeUpper(r);
    }
    forall x | InRange(x, EVENT_PREFIX, PrefixEnd(EVENT_PREFIX)) ensures EVENT_PREFIX <= x {
      PrefixRange(EVENT_PREFIX, x);
    }
  }

  // ---------------------------------------------------------------- Events

  function ClampEvents(limit: int): (n: nat)
    ensures 1 <= n <= 10000
  {
    if limit <= 0 || limit > 10000 then 1000 else limit
  }

  function Min(a: nat, b: nat): nat {
    if a <= b then a else b
  }

  /** The retained events above `after` (which wraps at 2^64-1) and, for a non-zero `before`, at
      most `before`. */
  function Retained(log: seq<Event>, first: nat, after: uint64, before: uint64): (r: seq<Event>)
    requires 1 <= first <= |log| + 1
  {
    Window(log, first, AddU64(after, 1), UpperRevision(before))
  }

  /** These are the retained events with a revision above `after` and within `before`, in order and
      without a gap; only the largest `after` wraps, and then nothing is skipped. */
  lemma RetainedExact(log: seq<Event>, first: nat, after: uint64, before: uint64, r: uint64)
    requires Faithful(log) && 1 <= first <= |log| + 1 <= MAX_U64 + 1
    ensures var all := Retained(log, first, after, before);
            && (forall i | 0 <= i < |all| :: all[i].revision == all[0].revision + i)
            && ((exists e :: e in all && e.revision == r) <==>
                first <= r <= |log| && (after < r || after == MAX_U64) && (before == 0 || r <= before))
            && (first <= r <= |log| && (after < r || after == MAX_U64) && (before == 0 || r <= before) ==>
                  log[r - 1] in all)
  {
    var all, lo := Retained(log, first, after, before), WindowLo(log, first, AddU64(after, 1));
    forall i | 0 <= i < |all| ensures all[i].revision == lo + i {
      assert FaithfulAt(log, lo - 1 + i);
    }
    if first <= r <= |log| && (after < r || after == MAX_U64) && (before == 0 || r <= before) {
      assert FaithfulAt(log, r - 1);
      assert all[r - lo] == log[r - 1];
    }
  }

  /** The keys hold these events, one each and in order. */
  ghost predicate Holding(db: Db, keys: seq<string>, events: seq<Event>) {
    |keys| == |events| && forall i | 0 <= i < |keys| :: Read(db, keys[i]) == Some(EventCell(events[i]))
  }

  lemma KeysHolding(db: Db, log: seq<Event>, first: nat, lo: nat, hi: nat)
    requires EventsHold(db, log, first) && first <= lo <= hi <= |log| + 1
    ensures Holding(db, EventKeys(lo, hi), log[lo - 1..hi - 1])
    ensures hi == |log| + 1 ==> Holding(db, EventKeys(lo, hi), log[lo - 1..])
  {
    var events := log[lo - 1..hi - 1];
    forall i | 0 <= i < hi - lo ensures Read(db, EventKeys(lo, hi)[i]) == Some(EventCell(events[i])) {
      assert Read(db, EventKey(lo + i)) == EventAt(log, first, lo + i);
    }
  }

  /** The scan between the bounds of a query walks the retained events it asks for. */
  lemma ScanRetained(db: Db, log: seq<Event>, first: nat, after: uint64, before: uint64)
    requires EventsHold(db, log, first)
    ensures Holding(db, Walk(RangeKeys(db, EventKey(AddU64(after, 1)), UpperKey(before))),
                    Retained(log, first, after, before))
  {
    var a := AddU64(after, 1);
    EventKeysSpan(a, before);
    ScanWindow(db, log, first, EventKey(a), UpperKey(before), a, UpperRevision(before));
  }

  function Window(log: seq<Event>, first: nat, a: nat, b: nat): seq<Event>
    requires 1 <= first <= |log| + 1
  {
    var lo, hi := WindowLo(log, first, a), WindowHi(log, first, a, b);
    if lo == hi then [] else log[lo - 1..hi - 1]
  }

  lemma ScanWindow(db: Db, log: seq<Event>, first: nat, lower: string, upper: string, a: nat, b: nat)
    requires EventsHold(db, log, first) && Spans(lower, upper, a, b)
    ensures Holding(db, Walk(RangeKeys(db, lower, upper)), Window(log, first, a, b))
  {
    WalkWindow(db, log, first, lower, upper, a, b);
    var lo, hi := WindowLo(log, first, a), WindowHi(log, first, a, b);
    if lo < hi { KeysHolding(db, log, first, lo, hi); }
  }

  lemma ScanAll(db: Db, log: seq<Event>, first: nat)
    requires EventsHold(db, log, first)
    ensures var keys := Walk(RangeKeys(db, EVENT_PREFIX, PrefixEnd(EVENT_PREFIX)));
            keys == EventKeys(first, |log| + 1) && Holding(db, keys, log[first - 1..])
  {
    assert Spans(EVENT_PREFIX, PrefixEnd(EVENT_PREFIX), 0, MAX_U64) by { WholeSpan(); }
    WalkWindow(db, log, first, EVENT_PREFIX, PrefixEnd(EVENT_PREFIX), 0, MAX_U64);
    KeysHolding(db, log, first, first, |log| + 1);
  }

  /** Events: the first `limit` retained events in the range, oldest first. */
  method Events(db: Db, after: uint64, before: uint64, limit: int, ghost log: seq<Event>, ghost first: nat)
    returns (out: seq<Event>)
    requires EventsHold(db, log, first)
    ensures var all := Retained(log, first, after, before);
            && out == all[..Min(|all|, ClampEvents(limit))]
            && |out| == Min(|all|, if 1 <= limit <= 10000 then limit else 1000)
  {
    var keys := Iterate(db, EventKey(AddU64(after, 1)), UpperKey(before));
    ScanRetained(db, log, first, after, before);
    out := Take(db, keys, ClampEvents(limit), Retained(log, first, after, before));
  }

  method Take(db: Db, keys: seq<string>, max: nat, ghost events: seq<Event>) returns (out: seq<Event>)
    requires Holding(db, keys, events)
    ensures out == events[..Min(|events|, max)]
  {
    out := [];
    var i := 0;
    while i < |keys| && |out| < max
      invariant 0 <= i <= |keys| && i <= max && out == events[..i]
    {
      assert Read(db, keys[i]) == Some(EventCell(events[i]));
      out := out + [db[keys[i]].event];
      i := i + 1;
    }
  }

  /** OldestRevision: the first retained revision, or zero when the journal is empty. */
  method OldestRevision(db: Db, ghost log: seq<Event>, ghost first: nat) returns (r: uint64)
    requires EventsHold(db, log, first)
    ensures r == if first <= |log| then first else 0
  {
    var keys := Iterate(db, EVENT_PREFIX, PrefixEnd(EVENT_PREFIX));
    ScanAll(db, log, first);
    if |keys| == 0 { return 0; }
    EventKeyParses(first);
    var n := ParseUint(keys[0][|EVENT_PREFIX|..]);
    r := if n.Some? then n.value else 0;
  }
}
