/** Undoing a journal that is read while retention cuts it: what the missed events change
    (internal/store/store.go:418-434). */
module Gaps {
  import opened Journal

  /** The events of lo..hi-1 whose positions are in `kept`, in order. */
  function Pick(log: seq<Event>, kept: set<nat>, lo: nat, hi: nat): (r: seq<Event>)
    requires hi <= |log|
  {
    if hi <= lo then []
    else Pick(log, kept, lo, hi - 1) + if hi - 1 in kept then [log[hi - 1]] else []
  }

  /** The first kept position that touches a key, or the end. */
  function FirstKept(log: seq<Event>, kept: set<nat>, lo: nat, hi: nat, k: EntityKey): (i: nat)
    requires lo <= hi <= |log|
    ensures lo <= i <= hi && (i < hi ==> i in kept && log[i].key == k)
    ensures forall j | lo <= j < i && j in kept :: log[j].key != k
    decreases hi - lo
  {
    if lo == hi || (lo in kept && log[lo].key == k) then lo else FirstKept(log, kept, lo + 1, hi, k)
  }

  /** Every event before the first kept one of its key came and went: the key was absent at revision
      lo, and absent again before that first kept event. */
  ghost predicate Harmless(log: seq<Event>, kept: set<nat>, lo: nat, hi: nat)
    requires lo <= hi <= |log|
  {
    forall j | lo <= j < hi && j < FirstKept(log, kept, lo, hi, log[j].key) ::
      log[j].key !in StateAt(log, lo) && log[j].key !in StateAt(log, FirstKept(log, kept, lo, hi, log[j].key))
  }

  lemma FirstKeptLess(log: seq<Event>, kept: set<nat>, lo: nat, hi: nat, k: EntityKey)
    requires lo < hi <= |log|
    ensures var i := FirstKept(log, kept, lo, hi - 1, k);
            FirstKept(log, kept, lo, hi, k) ==
            if i < hi - 1 then i else if hi - 1 in kept && log[hi - 1].key == k then hi - 1 else hi
  {
  }

  lemma UndoAllSnoc(mem: Mem, front: seq<Event>, e: Event)
    ensures UndoAll(mem, front + [e]) == UndoAll(Undo(mem, e), front)
  {
    assert (front + [e])[..|front|] == front;
  }

  lemma {:induction false} UndoneKey(log: seq<Event>, kept: set<nat>, lo: nat, hi: nat, mem: Mem, k: EntityKey)
    requires lo <= hi <= |log|
    ensures var i := FirstKept(log, kept, lo, hi, k);
            Get(UndoAll(mem, Pick(log, kept, lo, hi)), k) == if i < hi then log[i].before else Get(mem, k)
    decreases hi
  {
    if lo < hi {
      var e, front := log[hi - 1], Pick(log, kept, lo, hi - 1);
      FirstKeptLess(log, kept, lo, hi, k);
      if hi - 1 in kept {
        UndoAllSnoc(mem, front, e);
        UndoneKey(log, kept, lo, hi - 1, Undo(mem, e), k);
      } else {
        assert front + [] == front;
        UndoneKey(log, kept, lo, hi - 1, mem, k);
      }
    }
  }

  /** A key ends up as it was just before its first kept event. */
  lemma UndoneTo(log: seq<Event>, kept: set<nat>, lo: nat, hi: nat, k: EntityKey)
    requires Faithful(log) && lo <= hi <= |log|
    ensures Get(UndoAll(StateAt(log, hi), Pick(log, kept, lo, hi)), k)
            == Get(StateAt(log, FirstKept(log, kept, lo, hi, k)), k)
  {
    UndoneKey(log, kept, lo, hi, StateAt(log, hi), k);
    var i := FirstKept(log, kept, lo, hi, k);
    if i < hi { assert FaithfulAt(log, i); }
  }

  /** Undoing only the kept events restores revision lo exactly when the missed ones are harmless. */
  lemma UndoneExactly(log: seq<Event>, kept: set<nat>, lo: nat, hi: nat)
    requires Faithful(log) && lo <= hi <= |log|
    ensures UndoAll(StateAt(log, hi), Pick(log, kept, lo, hi)) == StateAt(log, lo) <==> Harmless(log, kept, lo, hi)
  {
    var undone, past := UndoAll(StateAt(log, hi), Pick(log, kept, lo, hi)), StateAt(log, lo);
    if Harmless(log, kept, lo, hi) {
      forall k ensures Get(undone, k) == Get(past, k) {
        UndoneTo(log, kept, lo, hi, k);
        SameValueExactly(log, lo, FirstKept(log, kept, lo, hi, k), k);
      }
      MemEqual(undone, past);
    }
    if undone == past {
      forall j | lo <= j < hi && j < FirstKept(log, kept, lo, hi, log[j].key)
        ensures log[j].key !in past && log[j].key !in StateAt(log, FirstKept(log, kept, lo, hi, log[j].key))
      {
        UndoneTo(log, kept, lo, hi, log[j].key);
        SameValueExactly(log, lo, FirstKept(log, kept, lo, hi, log[j].key), log[j].key);
      }
    }
  }

  /** With nothing missed the result is right. */
  lemma NothingMissed(log: seq<Event>, kept: set<nat>, lo: nat, hi: nat)
    requires lo <= hi <= |log| && forall j | lo <= j < hi :: j in kept
    ensures Harmless(log, kept, lo, hi)
  {
  }

  /** With everything missed the condition is that the events left no trace. */
  lemma AllMissed(log: seq<Event>, kept: set<nat>, lo: nat)
    requires lo <= |log| && kept == {}
    ensures Harmless(log, kept, lo, |log|) <==> LeftNoTrace(log, lo)
    ensures Pick(log, kept, lo, |log|) == []
  {
    NonePicked(log, kept, lo, |log|);
    assert forall k :: FirstKept(log, kept, lo, |log|, k) == |log|;
  }

  lemma {:induction false} NonePicked(log: seq<Event>, kept: set<nat>, lo: nat, hi: nat)
    requires hi <= |log| && kept == {}
    ensures Pick(log, kept, lo, hi) == []
  {
    if lo < hi { NonePicked(log, kept, lo, hi - 1); }
  }

  /** Keeping the positions a..b-1, past all those kept so far, picks those events too. */
  lemma {:induction false} PickMore(log: seq<Event>, kept: set<nat>, kept': set<nat>, lo: nat, c: nat, a: nat, b: nat)
    requires lo <= c <= a <= b <= |log| && (forall j | j in kept :: j < c)
    requires forall j :: j in kept' <==> j in kept || a <= j < b
    ensures Pick(log, kept', lo, b) == Pick(log, kept, lo, c) + log[a..b]
    decreases b
  {
    if a < b {
      PickRest(log, kept, kept', lo, c, a, b);
    } else {
      assert forall j :: j in kept' <==> j in kept;
      assert kept' == kept;
      SkipRest(log, kept, lo, c, b);
    }
  }

  lemma PickRest(log: seq<Event>, kept: set<nat>, kept': set<nat>, lo: nat, c: nat, a: nat, b: nat)
    requires lo <= c <= a < b <= |log| && (forall j | j in kept :: j < c)
    requires forall j :: j in kept' <==> j in kept || a <= j < b
    ensures Pick(log, kept', lo, b) == Pick(log, kept, lo, c) + log[a..b]
    decreases b, 0
  {
    var less := kept' - {b - 1};
    PickMore(log, kept, less, lo, c, a, b - 1);
    PickSame(log, kept', less, lo, b - 1);
    assert log[a..b] == log[a..b - 1] + [log[b - 1]];
  }

  lemma {:induction false} PickSame(log: seq<Event>, kept: set<nat>, kept': set<nat>, lo: nat, hi: nat)
    requires hi <= |log| && forall j | lo <= j < hi :: j in kept <==> j in kept'
    ensures Pick(log, kept, lo, hi) == Pick(log, kept', lo, hi)
  {
    if lo < hi { PickSame(log, kept, kept', lo, hi - 1); }
  }

  lemma {:induction false} SkipRest(log: seq<Event>, kept: set<nat>, lo: nat, c: nat, b: nat)
    requires lo <= c <= b <= |log| && forall j | j in kept :: j < c
    ensures Pick(log, kept, lo, b) == Pick(log, kept, lo, c)
    decreases b
  {
    if c < b { SkipRest(log, kept, lo, c, b - 1); }
  }
}
