/** History retention: cutting a prefix of the journal (internal/store/store.go:581-623). */
module Retention {
  import opened Orders
  import opened Entities
  import opened Keys
  import opened Journal
  import opened Database

  // ---------------------------------------------------------------- how much to cut

  /** The age rule: how many leading events were observed before the cutoff. */
  function AgeCut(events: seq<Event>, cutoff: Time): (n: nat)
    ensures n <= |events|
    ensures forall i | 0 <= i < n :: events[i].observed < cutoff
    ensures n < |events| ==> events[n].observed >= cutoff
  {
    if events == [] || events[0].observed >= cutoff then 0 else 1 + AgeCut(events[1..], cutoff)
  }

  function Bytes(size: Event -> uint64, events: seq<Event>): (n: nat) {
    if events == [] then 0 else Bytes(size, events[..|events| - 1]) + size(events[|events| - 1])
  }

  /** The running sum of the sizes, kept to 64 bits. */
  function Freed(size: Event -> uint64, events: seq<Event>): uint64 {
    if events == [] then 0 else AddU64(Freed(size, events[..|events| - 1]), size(events[|events| - 1]))
  }

  lemma {:induction false} FreedWraps(size: Event -> uint64, events: seq<Event>)
    ensures WrapsTo(Bytes(size, events), Freed(size, events))
    ensures Freed(size, events) == Bytes(size, events) <==> Bytes(size, events) <= MAX_U64
    decreases |events|
  {
    if events == [] {
      WrapsToZero();
    } else {
      var front := events[..|events| - 1];
      FreedWraps(size, front);
      WrapsToAdd(Bytes(size, front), Freed(size, front), size(events[|events| - 1]));
    }
    WrapsToExact(Bytes(size, events), Freed(size, events));
  }

  /** The size rule: how many leading events, starting after the first i, until their running sum
      reaches the target. */
  function SizeCut(size: Event -> uint64, events: seq<Event>, target: nat, i: nat): (n: nat)
    requires i <= |events|
    ensures i <= n <= |events|
    decreases |events| - i
  {
    if i == |events| then i
    else if Freed(size, events[..i + 1]) >= target then i + 1
    else SizeCut(size, events, target, i + 1)
  }

  lemma {:induction false} SizeCutFirst(size: Event -> uint64, events: seq<Event>, target: nat, i: nat)
    requires i <= |events| && forall j | 0 < j <= i :: Freed(size, events[..j]) < target
    ensures var n := SizeCut(size, events, target, i);
            && (n < |events| && n > i ==> Freed(size, events[..n]) >= target)
            && (forall j | 0 < j < n :: Freed(size, events[..j]) < target)
    decreases |events| - i
  {
    if i < |events| && Freed(size, events[..i + 1]) < target {
      SizeCutFirst(size, events, target, i + 1);
    }
  }

  /** While the retained events take fewer than 2^64 bytes, the cut by size is the shortest prefix that
      reaches the target, or the whole journal. */
  lemma SizeCutShortest(size: Event -> uint64, events: seq<Event>, target: nat)
    requires Bytes(size, events) <= MAX_U64
    ensures var n := SizeCut(size, events, target, 0);
            && (0 < n < |events| ==> Bytes(size, events[..n]) >= target)
            && (forall j | 0 < j < n :: Bytes(size, events[..j]) < target)
  {
    SizeCutFirst(size, events, target, 0);
    forall j | 0 < j <= |events| ensures Freed(size, events[..j]) == Bytes(size, events[..j]) {
      BytesGrow(size, events, j);
      FreedWraps(size, events[..j]);
    }
  }

  function SubU64(a: uint64, b: uint64): (r: uint64)
    ensures r == a - b || (a < b && r == a - b + 0x1_0000_0000_0000_0000)
  {
    if b <= a then a - b else a - b + MAX_U64 + 1
  }

  /** The bytes to free, from the second of two readings of the disk usage. */
  function Target(usage: uint64, maxBytes: uint64): uint64 {
    AddU64(SubU64(usage, maxBytes), maxBytes / 10)
  }

  /** The target is exact unless the usage fell more than a tenth of the budget below the budget
      between the two readings; with one steady reading it never wraps. */
  lemma TargetExact(usage: uint64, maxBytes: uint64)
    ensures Target(usage, maxBytes) == usage - maxBytes + maxBytes / 10 <==> usage + maxBytes / 10 >= maxBytes
    ensures usage + maxBytes / 10 < maxBytes ==>
              Target(usage, maxBytes) == usage - maxBytes + maxBytes / 10 + 0x1_0000_0000_0000_0000
    ensures usage > maxBytes ==> 0 < Target(usage, maxBytes) <= usage
  {
  }

  /** How many retained events a compaction removes: by size when the usage exceeds the budget, and
      otherwise by age. */
  function CutLength(events: seq<Event>, cutoff: Time, maxBytes: uint64, usage: uint64, usage2: uint64,
                     size: Event -> uint64): (n: nat)
    ensures n <= |events|
  {
    if maxBytes > 0 && usage > maxBytes then SizeCut(size, events, Target(usage2, maxBytes), 0)
    else AgeCut(events, cutoff)
  }

  // ---------------------------------------------------------------- cutting

  /** Removes every key in [lo, hi). */
  function DeleteRange(db: Db, lo: string, hi: string): Db {
    map x | x in db && !InRange(x, lo, hi) :: db[x]
  }

  /** Removes the first n retained events. */
  function Cut(db: Db, first: nat, n: nat): Db
    requires first + n <= MAX_U64 + 1
  {
    if n == 0 then db else DeleteRange(db, EVENT_PREFIX, EventKey(first + n - 1) + [0 as char])
  }

  /** Deleting up to an event removes exactly the events up to it. */
  lemma CutReadsEvent(db: Db, last: uint64, end: string, r: uint64)
    requires end == EventKey(last) + [0 as char]
    ensures Read(DeleteRange(db, EVENT_PREFIX, end), EventKey(r)) == if r <= last then None else Read(db, EventKey(r))
  {
    BelowSuccessor(EventKey(r), EventKey(last));
    EventKeyOrder(last, r);
    EventRangeUpper(r);
  }

  lemma CutReadsOther(db: Db, last: uint64, x: string)
    requires !(EVENT_PREFIX <= x)
    ensures Read(DeleteRange(db, EVENT_PREFIX, EventKey(last) + [0 as char]), x) == Read(db, x)
  {
    BelowSuccessor(x, EventKey(last));
    PrefixRange(EVENT_PREFIX, x);
    if InRange(x, EVENT_PREFIX, EventKey(last) + [0 as char]) {
      BelowEnd(x, last);
    }
  }

  lemma BelowEnd(x: string, last: uint64)
    requires StrAtMost(x, EventKey(last))
    ensures StrLess(x, PrefixEnd(EVENT_PREFIX))
  {
    EventRangeUpper(last);
    StrLessTotal(x, EventKey(last));
    if x != EventKey(last) { StrLessTrans(x, EventKey(last), PrefixEnd(EVENT_PREFIX)); }
  }

  /** Cutting leaves the log from a later first revision on. */
  lemma CutEvents(db: Db, log: seq<Event>, first: nat, n: nat)
    requires EventsHold(db, log, first) && first + n <= |log| + 1
    ensures EventsHold(Cut(db, first, n), log, first + n)
  {
    if n > 0 {
      CutTo(db, log, first, first + n - 1, EventKey(first + n - 1) + [0 as char]);
    }
  }

  lemma CutTo(db: Db, log: seq<Event>, first: nat, last: uint64, end: string)
    requires EventsHold(db, log, first) && first <= last <= |log| && end == EventKey(last) + [0 as char]
    ensures EventsHold(DeleteRange(db, EVENT_PREFIX, end), log, last + 1)
  {
    var db' := DeleteRange(db, EVENT_PREFIX, end);
    forall r: uint64 ensures Read(db', EventKey(r)) == EventAt(log, last + 1, r) {
      CutReadsEvent(db, last, end, r);
      assert Read(db, EventKey(r)) == EventAt(log, first, r);
    }
  }

  /** Cutting touches neither the entities nor the revision counter. */
  lemma CutKeepsState(db: Db, mem: Mem, rev: nat, first: nat, n: nat)
    requires EntitiesHold(db, mem) && RevisionHolds(db, rev) && first + n <= MAX_U64 + 1
    ensures EntitiesHold(Cut(db, first, n), mem) && RevisionHolds(Cut(db, first, n), rev)
  {
    if n > 0 {
      var db' := Cut(db, first, n);
      forall k: EntityKey | !k.kind.UnknownKind? ensures Read(db', DbKey(k)) == ToCell(Get(mem, k)) {
        KeySpacesApart(k, 0);
        CutElsewhere(db, first, n, DbKey(k));
        assert Read(db, DbKey(k)) == ToCell(Get(mem, k));
      }
      KeySpacesApart(EntityKey(NodeKind, ""), 0);
      CutElsewhere(db, first, n, META_KEY);
    }
  }

  lemma CutElsewhere(db: Db, first: nat, n: nat, x: string)
    requires first + n <= MAX_U64 + 1 && !(EVENT_PREFIX <= x)
    ensures Read(Cut(db, first, n), x) == Read(db, x)
  {
    if n > 0 { CutReadsOther(db, first + n - 1, x); }
  }

  // ---------------------------------------------------------------- CompactHistory

  /** Finds the last key the age rule deletes (store.go:588-601). */
  method AgeScan(db: Db, keys: seq<string>, cutoff: Time, ghost events: seq<Event>) returns (deleteTo: Option<string>)
    requires Holding(db, keys, events)
    ensures var n := AgeCut(events, cutoff); deleteTo == if n == 0 then None else Some(keys[n - 1])
  {
    deleteTo := None;
    var i := 0;
    while i < |keys|
      invariant 0 <= i <= |keys|
      invariant AgeCut(events, cutoff) == i + AgeCut(events[i..], cutoff)
      invariant deleteTo == if i == 0 then None else Some(keys[i - 1])
    {
      assert Read(db, keys[i]) == Some(EventCell(events[i]));
      if db[keys[i]].event.observed >= cutoff { break; }
      assert events[i..][1..] == events[i + 1..];
      deleteTo := Some(keys[i]);
      i := i + 1;
    }
  }

  /** Finds the last key the size rule deletes (store.go:603-613). */
  method SizeScan(db: Db, keys: seq<string>, target: uint64, size: Event -> uint64, before: Option<string>,
                  ghost events: seq<Event>)
    returns (deleteTo: Option<string>)
    requires Holding(db, keys, events)
    ensures var n := SizeCut(size, events, target, 0); deleteTo == if n == 0 then before else Some(keys[n - 1])
  {
    deleteTo := before;
    var accumulated: uint64 := 0;
    var i := 0;
    while i < |keys|
      invariant 0 <= i <= |keys| && accumulated == Freed(size, events[..i])
      invariant SizeCut(size, events, target, 0) == SizeCut(size, events, target, i)
      invariant deleteTo == if i == 0 then before else Some(keys[i - 1])
    {
      assert Read(db, keys[i]) == Some(EventCell(events[i]));
      assert events[..i + 1][..i] == events[..i];
      accumulated := AddU64(accumulated, size(db[keys[i]].event));
      deleteTo := Some(keys[i]);
      if accumulated >= target { break; }
      i := i + 1;
    }
  }

  lemma {:induction false} BytesGrow(size: Event -> uint64, events: seq<Event>, i: nat)
    requires i <= |events|
    ensures Bytes(size, events[..i]) <= Bytes(size, events)
    decreases |events| - i
  {
    if i < |events| {
      assert events[..i + 1][..i] == events[..i];
      BytesGrow(size, events, i + 1);
    } else {
      assert events[..i] == events;
    }
  }

  /** The last key to delete, if any (store.go:587-614). */
  method FindCut(db: Db, keys: seq<string>, cutoff: Time, maxBytes: uint64, usage: uint64, usage2: uint64,
                 size: Event -> uint64, ghost events: seq<Event>) returns (deleteTo: Option<string>)
    requires Holding(db, keys, events)
    ensures var n := CutLength(events, cutoff, maxBytes, usage, usage2, size);
            deleteTo == if n == 0 then None else Some(keys[n - 1])
  {
    deleteTo := AgeScan(db, keys, cutoff, events);
    if maxBytes > 0 && usage > maxBytes {
      deleteTo := SizeScan(db, keys, Target(usage2, maxBytes), size, deleteTo, events);
      SizeCutPositive(size, events, Target(usage2, maxBytes));
    }
  }

  /** Of the retained events exactly the n oldest are gone, and nothing else is touched. */
  ghost predicate Removes(db: Db, db': Db, log: seq<Event>, first: nat, n: nat) {
    && (forall r: uint64 | first <= r <= |log| :: EventKey(r) !in db' <==> r < first + n)
    && (forall x | x in db' :: x in db && db'[x] == db[x])
    && (forall x | x in db && !(EVENT_PREFIX <= x) :: x in db')
  }

  lemma CutRemoves(db: Db, log: seq<Event>, first: nat, n: nat)
    requires EventsHold(db, log, first) && first + n <= |log| + 1
    ensures Removes(db, Cut(db, first, n), log, first, n)
  {
    var db' := Cut(db, first, n);
    CutEvents(db, log, first, n);
    forall r: uint64 | first <= r <= |log| ensures EventKey(r) !in db' <==> r < first + n {
      assert Read(db', EventKey(r)) == EventAt(log, first + n, r);
    }
    forall x | x in db && !(EVENT_PREFIX <= x) ensures x in db' {
      CutElsewhere(db, first, n, x);
    }
  }

  /** The age rule, on the journal: a retained event goes exactly when it and every older retained one
      were observed before the cutoff. */
  ghost predicate CutByAge(db': Db, log: seq<Event>, first: nat, cutoff: Time)
    requires 1 <= first
  {
    forall r: uint64 | first <= r <= |log| :: EventKey(r) !in db' <==> AllBefore(log, first - 1, r, cutoff)
  }

  /** The events at positions lo..hi-1 were observed before the cutoff. */
  ghost predicate AllBefore(log: seq<Event>, lo: nat, hi: nat, cutoff: Time)
    requires hi <= |log|
  {
    forall i | lo <= i < hi :: log[i].observed < cutoff
  }

  lemma AgeCutExactly(log: seq<Event>, lo: nat, hi: nat, cutoff: Time)
    requires lo < hi <= |log|
    ensures hi <= lo + AgeCut(log[lo..], cutoff) <==> AllBefore(log, lo, hi, cutoff)
  {
    var n := AgeCut(log[lo..], cutoff);
    if hi <= lo + n {
      forall i | lo <= i < hi ensures log[i].observed < cutoff { assert log[lo..][i - lo] == log[i]; }
    } else {
      assert log[lo..][n] == log[lo + n];
    }
  }

  lemma AgeRule(db: Db, db': Db, log: seq<Event>, first: nat, cutoff: Time)
    requires 1 <= first <= |log| + 1 && Removes(db, db', log, first, AgeCut(log[first - 1..], cutoff))
    ensures CutByAge(db', log, first, cutoff)
  {
    forall r: uint64 | first <= r <= |log| ensures EventKey(r) !in db' <==> AllBefore(log, first - 1, r, cutoff) {
      AgeCutExactly(log, first - 1, r, cutoff);
    }
  }

  /** The size rule: the events that go are the shortest non-empty prefix whose bytes reach the target, or
      the whole journal. */
  ghost predicate CutBySize(db: Db, db': Db, log: seq<Event>, first: nat, size: Event -> uint64, target: int)
    requires 1 <= first <= |log| + 1
  {
    exists n :: 0 <= n <= |log| + 1 - first && Shortest(log[first - 1..], size, target, n)
                && Removes(db, db', log, first, n)
  }

  ghost predicate Shortest(events: seq<Event>, size: Event -> uint64, target: int, n: nat)
    requires n <= |events|
  {
    && (events != [] ==> n > 0)
    && (n < |events| ==> Bytes(size, events[..n]) >= target)
    && (forall j | 0 < j < n :: Bytes(size, events[..j]) < target)
  }

  lemma SizeRule(db: Db, db': Db, log: seq<Event>, first: nat, size: Event -> uint64, target: nat)
    requires 1 <= first <= |log| + 1 && Bytes(size, log[first - 1..]) <= MAX_U64
    requires Removes(db, db', log, first, SizeCut(size, log[first - 1..], target, 0))
    ensures CutBySize(db, db', log, first, size, target)
  {
    SizeCutShortest(size, log[first - 1..], target);
    SizeCutPositive(size, log[first - 1..], target);
    assert Shortest(log[first - 1..], size, target, SizeCut(size, log[first - 1..], target, 0));
  }

  /** CompactHistory. The disk usage is read twice; sizes are those of the stored key and value. Within the
      budget, or without one, the age rule decides; over it, the size rule alone. */
  method CompactHistory(db: Db, cutoff: Time, maxBytes: uint64, usage: uint64, usage2: uint64, size: Event -> uint64,
                        ghost log: seq<Event>, ghost first: nat) returns (db': Db)
    requires EventsHold(db, log, first)
    ensures db' == Cut(db, first, CutLength(log[first - 1..], cutoff, maxBytes, usage, usage2, size))
    ensures exists n :: 0 <= n <= |log| + 1 - first && Removes(db, db', log, first, n)
    ensures maxBytes == 0 || usage <= maxBytes ==> CutByAge(db', log, first, cutoff)
    ensures usage > maxBytes > 0 && usage2 + maxBytes / 10 >= maxBytes && Bytes(size, log[first - 1..]) <= MAX_U64 ==>
              CutBySize(db, db', log, first, size, usage2 - maxBytes + maxBytes / 10)
  {
    var keys := Iterate(db, EVENT_PREFIX, PrefixEnd(EVENT_PREFIX));
    ScanAll(db, log, first);
    ghost var events := log[first - 1..];
    db' := CutKeys(db, keys, cutoff, maxBytes, usage, usage2, size, events, first);
    ghost var n := CutLength(events, cutoff, maxBytes, usage, usage2, size);
    CutRemoves(db, log, first, n);
    if maxBytes == 0 || usage <= maxBytes {
      AgeRule(db, db', log, first, cutoff);
    } else if usage2 + maxBytes / 10 >= maxBytes && Bytes(size, events) <= MAX_U64 {
      TargetExact(usage2, maxBytes);
      SizeRule(db, db', log, first, size, Target(usage2, maxBytes));
    }
  }

  /** Deletes up to the last key to delete (store.go:587-621). */
  method CutKeys(db: Db, keys: seq<string>, cutoff: Time, maxBytes: uint64, usage: uint64, usage2: uint64,
                 size: Event -> uint64, ghost events: seq<Event>, ghost first: nat) returns (db': Db)
    requires Holding(db, keys, events)
    requires first + |events| <= MAX_U64 + 1 && keys == EventKeys(first, first + |events|)
    ensures db' == Cut(db, first, CutLength(events, cutoff, maxBytes, usage, usage2, size))
  {
    var deleteTo := FindCut(db, keys, cutoff, maxBytes, usage, usage2, size, events);
    CutUpTo(db, keys, deleteTo, first, CutLength(events, cutoff, maxBytes, usage, usage2, size));
    if deleteTo.None? { return db; }
    db' := DeleteRange(db, EVENT_PREFIX, deleteTo.value + [0 as char]);
  }

  lemma CutUpTo(db: Db, keys: seq<string>, deleteTo: Option<string>, first: nat, n: nat)
    requires n <= |keys| && first + |keys| <= MAX_U64 + 1 && keys == EventKeys(first, first + |keys|)
    requires deleteTo == if n == 0 then None else Some(keys[n - 1])
    ensures Cut(db, first, n) ==
            if deleteTo.None? then db else DeleteRange(db, EVENT_PREFIX, deleteTo.value + [0 as char])
  {
  }

  lemma SizeCutPositive(size: Event -> uint64, events: seq<Event>, target: nat)
    ensures SizeCut(size, events, target, 0) == 0 <==> events == []
  {
  }
}
