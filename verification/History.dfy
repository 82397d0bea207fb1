/** Point-in-time reads: undoing later events from a snapshot of the present
    (internal/store/store.go:383-505). */
module History {
  import opened Entities
  import opened Journal
  import opened Database
  import opened Gaps

  datatype Snapshot = Snapshot(revision: uint64, observed: Option<Time>, mem: Mem)

  datatype SnapshotResult = Found(snapshot: Snapshot) | NotYet | Expired(oldest: uint64)

  /** Retained events between revisions of which none was cut. */
  lemma RetainedBetween(log: seq<Event>, first: nat, lo: uint64, hi: uint64)
    requires 1 <= first <= |log| + 1 && first - 1 <= lo < hi <= |log|
    ensures Retained(log, first, lo, hi) == log[lo..hi]
  {
  }

  /** The database as its i-th reading sees it: mutations may commit between readings, and retention
      may cut more. */
  ghost predicate Views(views: nat -> Db, logs: nat -> seq<Event>, firsts: nat -> nat, log: seq<Event>) {
    forall i :: log <= logs(i) && EventsHold(views(i), logs(i), firsts(i))
  }

  ghost predicate AtRest(firsts: nat -> nat) {
    forall i :: firsts(i) == firsts(0)
  }

  /** From the second reading on, every event after revision r is still there. */
  ghost predicate Spared(firsts: nat -> nat, r: nat) {
    forall i | 1 <= i :: firsts(i) <= r + 1
  }

  /** From the second reading on, every event up to revision r is gone. */
  ghost predicate Spent(firsts: nat -> nat, r: nat) {
    forall i | 1 <= i :: r < firsts(i)
  }

  /** The positions a collection missed: each was cut before some reading reached it. */
  ghost predicate MissedCut(firsts: nat -> nat, kept: set<nat>, lo: nat, hi: nat) {
    forall j | lo <= j < hi && j !in kept :: CutBefore(firsts, j)
  }

  ghost predicate CutBefore(firsts: nat -> nat, j: nat) {
    exists i :: 1 <= i && j + 1 < firsts(i)
  }

  /** Collects the events in (lo, hi] in chunks (store.go:418-430): all of them, except for those that
      retention removed before they were read. */
  method Collect(views: nat -> Db, lo: uint64, hi: uint64, ghost logs: nat -> seq<Event>,
                 ghost firsts: nat -> nat, ghost log: seq<Event>)
    returns (events: seq<Event>, i: nat, ghost kept: set<nat>)
    requires Views(views, logs, firsts, log) && Faithful(log) && lo < hi == |log|
    ensures events == Pick(log, kept, lo, hi) && MissedCut(firsts, kept, lo, hi)
    ensures Spent(firsts, hi) ==> kept == {}
    ensures 1 <= i
  {
    events, kept := [], {};
    var cursor := lo;
    i := 1;
    while cursor < hi
      invariant lo <= cursor <= hi && 1 <= i
      invariant events == Pick(log, kept, lo, cursor) && MissedCut(firsts, kept, lo, cursor)
      invariant forall j | j in kept :: j < cursor
      invariant Spent(firsts, hi) ==> kept == {}
      decreases hi - cursor
    {
      var chunk := Events(views(i), cursor, hi, 10000, logs(i), firsts(i));
      if |chunk| == 0 {
        NothingAhead(logs(i), firsts, i, cursor, hi);
        SkipRest(log, kept, lo, cursor, hi);
        return;
      }
      ghost var start := ChunkAhead(log, logs(i), firsts(i), cursor, hi, chunk);
      var next := chunk[|chunk| - 1].revision;
      ghost var more := kept + PositionsIn(start, next);
      PickMore(log, kept, more, lo, cursor, start, next);
      MissedMore(firsts, i, kept, more, lo, cursor, start, next);
      events := events + chunk;
      cursor, kept := next, more;
      i := i + 1;
    }
  }

  ghost function PositionsIn(a: nat, b: nat): (s: set<nat>)
    ensures forall j :: j in s <==> a <= j < b
  {
    if b <= a then {} else PositionsIn(a, b - 1) + {b - 1}
  }

  lemma MissedMore(firsts: nat -> nat, i: nat, kept: set<nat>, more: set<nat>,
                   lo: nat, cursor: nat, start: nat, next: nat)
    requires MissedCut(firsts, kept, lo, cursor) && 1 <= i && (cursor < start ==> start + 1 == firsts(i))
    requires forall j :: j in more <==> j in kept || start <= j < next
    ensures MissedCut(firsts, more, lo, next)
  {
    forall j | lo <= j < next && j !in more ensures CutBefore(firsts, j) {
      if j < cursor { assert j !in kept; } else { assert j + 1 < firsts(i); }
    }
  }

  /** A chunk that is empty finds everything ahead cut. */
  lemma NothingAhead(log: seq<Event>, firsts: nat -> nat, i: nat, lo: uint64, hi: uint64)
    requires 1 <= firsts(i) <= |log| + 1 && lo < hi <= |log| && 1 <= i && Retained(log, firsts(i), lo, hi) == []
    ensures hi < firsts(i) && forall j: nat | j < hi :: CutBefore(firsts, j)
  {
    if firsts(i) <= hi { SomeRetained(log, firsts(i), lo, hi); }
  }

  lemma SomeRetained(log: seq<Event>, first: nat, lo: uint64, hi: uint64)
    requires 1 <= first <= hi && lo < hi <= |log|
    ensures Retained(log, first, lo, hi) != []
  {
  }

  /** A chunk is a stretch of the log: it starts at the cursor or, when events past the cursor were
      cut, at the first one left, and it stays within the bound. */
  lemma ChunkAhead(log: seq<Event>, more: seq<Event>, first: nat, cursor: uint64, hi: uint64, chunk: seq<Event>)
    returns (start: nat)
    requires log <= more && Faithful(log) && 1 <= first <= |more| + 1 && cursor < hi == |log| && chunk != []
    requires var all := Retained(more, first, cursor, hi); chunk == all[..Min(|all|, 10000)]
    ensures cursor <= start < chunk[|chunk| - 1].revision <= hi && first <= start + 1
    ensures cursor < start ==> start + 1 == first
    ensures chunk == log[start..chunk[|chunk| - 1].revision]
  {
    start := WindowLo(more, first, AddU64(cursor, 1)) - 1;
    var last := start + |chunk| - 1;
    assert chunk[|chunk| - 1] == more[last] == log[last];
    assert FaithfulAt(log, last);
  }

  /** Undoes the events newest first, in place over the maps (store.go:431-434). */
  method UndoEvents(mem: Mem, events: seq<Event>) returns (r: Mem)
    ensures r == UndoAll(mem, events)
  {
    r := mem;
    var i := |events|;
    assert events[..i] == events;
    while i > 0
      invariant 0 <= i <= |events| && UndoAll(r, events[..i]) == UndoAll(mem, events)
    {
      i := i - 1;
      assert events[..i + 1][..i] == events[..i];
      r := Undo(r, events[i]);
    }
  }

  /** What a point-in-time read at 0 < revision < now answers: the maps of that revision if its
      successor events are all retained; the expiry error if some were cut and the journal is not
      empty; and, when the journal is empty, the present maps under the old revision number. */
  ghost function ReadAt(now: Snapshot, log: seq<Event>, retained: nat, first: nat, revision: uint64): SnapshotResult
    requires 0 < revision < now.revision == |log| <= retained <= MAX_U64 && 1 <= first
  {
    if first <= retained && revision + 1 < first then Expired(first - 1)
    else if first - 1 <= revision then
      Found(Snapshot(revision, if first <= revision then Some(log[revision - 1].observed) else None,
                     StateAt(log, revision)))
    else Found(Snapshot(revision, None, now.mem))
  }

  /** The answer is wrong only over a journal that was empty from the start, and then exactly when
      the events since the revision left a trace. */
  lemma ReadAtExact(now: Snapshot, log: seq<Event>, retained: nat, first: nat, revision: uint64)
    requires 0 < revision < now.revision == |log| <= retained <= MAX_U64 && 1 <= first
    requires Faithful(log) && now.mem == StateAt(log, |log|)
    ensures var r := ReadAt(now, log, retained, first, revision);
            r.Found? ==> (r.snapshot.mem == StateAt(log, revision) <==> first <= retained || LeftNoTrace(log, revision))
  {
    SameStateExactly(log, revision);
  }

  /** A point-in-time read. Whatever commits while it reads does not change its answer. It misses only
      events that retention removed before it came to them, and it is right exactly when those are
      harmless: always when retention spares the events after the revision, and, when retention removed
      them all, only if they left no trace. */
  method SnapshotAt(now: Snapshot, views: nat -> Db, revision: uint64, ghost logs: nat -> seq<Event>,
                    ghost firsts: nat -> nat, ghost log: seq<Event>)
    returns (r: SnapshotResult, ghost kept: set<nat>)
    requires Views(views, logs, firsts, log) && Faithful(log)
    requires now.revision == |log| && now.mem == StateAt(log, |log|)
    ensures revision == 0 || revision == now.revision ==> r == Found(now)
    ensures revision > now.revision ==> r == NotYet
    ensures 0 < revision < now.revision ==>
              && (r.Expired? <==> firsts(0) <= |logs(0)| && revision + 1 < firsts(0)) && !r.NotYet?
              && (r.Expired? ==> r.oldest == firsts(0) - 1)
    ensures 0 < revision < now.revision && r.Found? ==>
              && r.snapshot.revision == revision && MissedCut(firsts, kept, revision, now.revision)
              && (r.snapshot.mem == StateAt(log, revision) <==> Harmless(log, kept, revision, now.revision))
    ensures 0 < revision < now.revision && r.Found? && Spared(firsts, revision) ==>
              r.snapshot.mem == StateAt(log, revision)
    ensures 0 < revision < now.revision && r.Found? && Spent(firsts, now.revision) ==>
              r.snapshot == Snapshot(revision, None, now.mem)
              && (r.snapshot.mem == StateAt(log, revision) <==> LeftNoTrace(log, revision))
    ensures 0 < revision < now.revision && AtRest(firsts) ==>
              r == ReadAt(now, log, |logs(0)|, firsts(0), revision)
  {
    kept := {};
    if revision == 0 || revision == now.revision { return Found(now), kept; }
    if revision > now.revision { return NotYet, kept; }
    var oldest := OldestRevision(views(0), logs(0), firsts(0));
    if oldest != 0 && revision + 1 < oldest { return Expired(oldest - 1), kept; }
    var snapshot;
    snapshot, kept := Rebuild(now, views, revision, logs, firsts, log);
    r := Found(snapshot);
  }

  /** What undoing the collected events gives. */
  lemma RebuiltExactly(log: seq<Event>, firsts: nat -> nat, kept: set<nat>, revision: nat, mem: Mem)
    requires Faithful(log) && revision <= |log| && MissedCut(firsts, kept, revision, |log|)
    requires mem == UndoAll(StateAt(log, |log|), Pick(log, kept, revision, |log|))
    ensures mem == StateAt(log, revision) <==> Harmless(log, kept, revision, |log|)
    ensures Spared(firsts, revision) ==> mem == StateAt(log, revision)
    ensures kept == {} ==> mem == StateAt(log, |log|) && (mem == StateAt(log, revision) <==> LeftNoTrace(log, revision))
  {
    UndoneExactly(log, kept, revision, |log|);
    if Spared(firsts, revision) { SparedKept(log, firsts, kept, revision); }
    if kept == {} { AllMissed(log, kept, revision); }
  }

  /** The observation time of a revision, if its event is still there (store.go:436-438). */
  method ReadMarker(view: Db, revision: uint64, ghost more: seq<Event>, ghost first: nat, ghost log: seq<Event>)
    returns (observed: Option<Time>)
    requires log <= more && EventsHold(view, more, first) && 1 <= revision <= |log|
    ensures observed == if first <= revision then Some(log[revision - 1].observed) else None
  {
    var marker := Events(view, revision - 1, revision, 1, more, first);
    MarkerRead(log, more, first, revision);
    observed := if |marker| == 1 then Some(marker[0].observed) else None;
  }

  /** Undoes what happened since an old revision (store.go:398-460). */
  method Rebuild(now: Snapshot, views: nat -> Db, revision: uint64, ghost logs: nat -> seq<Event>,
                 ghost firsts: nat -> nat, ghost log: seq<Event>)
    returns (r: Snapshot, ghost kept: set<nat>)
    requires Views(views, logs, firsts, log) && Faithful(log)
    requires 0 < revision < now.revision == |log| && now.mem == StateAt(log, |log|)
    ensures r.revision == revision && MissedCut(firsts, kept, revision, now.revision)
    ensures r.mem == StateAt(log, revision) <==> Harmless(log, kept, revision, now.revision)
    ensures Spared(firsts, revision) ==> r.mem == StateAt(log, revision)
    ensures Spent(firsts, now.revision) ==>
              && r == Snapshot(revision, None, now.mem)
              && (r.mem == StateAt(log, revision) <==> LeftNoTrace(log, revision))
    ensures AtRest(firsts) ==>
              r.observed == if firsts(0) <= revision then Some(log[revision - 1].observed) else None
  {
    var events, i;
    events, i, kept := Collect(views, revision, now.revision, logs, firsts, log);
    var mem := UndoEvents(now.mem, events);
    RebuiltExactly(log, firsts, kept, revision, mem);
    var observed := ReadMarker(views(i), revision, logs(i), firsts(i), log);
    r := Snapshot(revision, observed, mem);
  }

  lemma SparedKept(log: seq<Event>, firsts: nat -> nat, kept: set<nat>, lo: nat)
    requires lo <= |log| && Spared(firsts, lo) && MissedCut(firsts, kept, lo, |log|)
    ensures Harmless(log, kept, lo, |log|)
  {
    NothingMissed(log, kept, lo, |log|);
  }

  /** Reading the single event of a revision. */
  lemma MarkerRead(log: seq<Event>, more: seq<Event>, first: nat, revision: uint64)
    requires log <= more && 1 <= first <= |more| + 1 && 1 <= revision <= |log|
    ensures Retained(more, first, revision - 1, revision) == if first <= revision then [log[revision - 1]] else []
  {
    if first <= revision {
      RetainedBetween(more, first, revision - 1, revision);
      assert more[revision - 1..revision] == [more[revision - 1]];
    }
  }
}
