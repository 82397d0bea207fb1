/** The store object: its fields change in place, step for step with the model
    (internal/store/store.go:58-85, 185-254, 554-623). */
module Stores {
  import opened Entities
  import opened Journal
  import opened Database
  import opened Recovery
  import opened Retention
  import opened StoreModel
  import opened History

  datatype Outcome = Committed(event: Event) | Refused

  class Store {
    var db: Db
    var revision: uint64
    var observed: Option<Time>
    var mem: Mem
    var chans: map<nat, Chan>
    var subs: set<nat>
    var nextSub: nat
    /** A subscriber blocked forever while it holds the lock. */
    var stuck: bool

    // The history, for the specification only.
    ghost var log: seq<Event>
    ghost var first: nat

    ghost function View(): World
      reads this
    {
      World(State(db, revision, observed, mem, chans, subs, nextSub, stuck), log, first)
    }

    ghost predicate Valid()
      reads this
    {
      Inv(View())
    }

    /** Open: rebuilds everything in memory from a database that some run left behind. */
    constructor (db: Db, ghost w: World)
      requires Inv(w) && db == w.s.db
      ensures Valid() && View() == Reopened(w)
      ensures mem == w.s.mem && revision == w.s.revision
    {
      ReopenGivesMemory(w);
      var loaded := Load(db);
      this.db := db;
      this.revision := StoredRevision(db);
      this.observed := StoredObserved(db);
      this.mem := if loaded.Some? then loaded.value else map[];
      this.chans, this.subs, this.nextSub, this.stuck := map[], {}, 0, false;
      this.log, this.first := w.log, w.first;
    }

    /** Offers an event to the registered channels, in any order (store.go:245-252). */
    method Publish(e: Event)
      requires subs <= chans.Keys && forall id | id in subs :: !chans[id].closed
      modifies this`chans, this`subs
      ensures chans == OfferAll(old(chans), old(subs), e)
      ensures subs == Fitting(old(chans), old(subs))
    {
      var left := subs;
      while left != {}
        invariant left <= subs <= old(subs) && chans.Keys == old(chans).Keys
        invariant forall id | id in old(chans) && (id in left || id !in old(subs)) :: chans[id] == old(chans)[id]
        invariant forall id | id in old(subs) && id !in left ::
                    chans[id] == Offer(old(chans)[id], e) && (id in subs <==> |old(chans)[id].buffer| < CAPACITY)
        decreases left
      {
        var id :| id in left;
        left := left - {id};
        if |chans[id].buffer| < CAPACITY {
          chans := chans[id := chans[id].Send(e)];
        } else {
          subs := subs - {id};
          chans := chans[id := chans[id].Close()];
        }
      }
    }

    /** Apply. `live` says the context is not done, `commits` that the batch commits. Only a commit at
        the last revision breaks the store: its counter wraps to zero. */
    method Apply(m: Mutation, now: Time, live: bool, commits: bool) returns (out: Outcome)
      requires Valid() && Matched(m) && !stuck
      modifies this
      ensures Valid() <==> out.Refused? || old(revision) < MAX_U64
      ensures out.Committed? <==> live && commits && m.key.id != "" && !m.key.kind.UnknownKind?
                                  && (m.delete || m.value.Some?)
      ensures out.Committed? ==> out.event == EventFor(old(View()).s, m, now)
      ensures out.Committed? && old(revision) < MAX_U64 ==> View() == Applied(old(View()), m, now)
      ensures out.Committed? && old(revision) == MAX_U64 ==> revision == 0
      ensures out.Refused? ==> View() == old(View())
    {
      if !live || m.key.id == "" || m.key.kind.UnknownKind? { return Refused; }
      if !m.delete && m.value.None? { return Refused; }
      if !commits { return Refused; }
      ghost var before := View();
      if revision < MAX_U64 { ApplyKeeps(before, m, now); }
      var e := EventFor(State(db, revision, observed, mem, chans, subs, nextSub, stuck), m, now);
      assert ChansInv(before);
      Commit(m, e);
      out := Committed(e);
    }

    /** Writes one change to the database, then to memory, then to the subscribers. */
    method Commit(m: Mutation, e: Event)
      requires subs <= chans.Keys && forall id | id in subs :: !chans[id].closed
      requires e.key == m.key && (m.delete <==> e.after.None?)
      requires e.after.Some? ==> KindOf(e.after.value) == m.key.kind
      modifies this
      ensures db == Batch(old(db), e) && mem == Put(old(mem), m.key, e.after)
      ensures revision == e.revision && observed == Some(e.observed) && log == old(log) + [e]
      ensures chans == OfferAll(old(chans), old(subs), e) && subs == Fitting(old(chans), old(subs))
      ensures nextSub == old(nextSub) && stuck == old(stuck) && first == old(first)
    {
      db := Batch(db, e);
      mem := if m.delete then mem - {m.key}
             else mem[EntityKey(KindOf(e.after.value), m.key.id) := e.after.value];
      revision, observed := e.revision, Some(e.observed);
      log := log + [e];
      Publish(e);
    }

    /** Subscribe: replays the retained events after `after`, then registers for live ones; no id
        when the backlog does not fit the channel. */
    method Subscribe(after: uint64) returns (id: Option<nat>)
      requires Valid() && !stuck
      modifies this
      ensures Valid() && View() == Subscribed(old(View()), after)
      ensures id == if stuck then None else Some(old(nextSub))
      ensures stuck <==> |Backlog(log, first, after)| > CAPACITY
    {
      ghost var before := View();
      SubscribeKeeps(before, after);
      var events := Events(db, after, 0, 10000, log, first);
      if |events| > CAPACITY {
        stuck := true;
        assert View() == Subscribed(before, after);
        return None;
      }
      var start := if |events| > 0 && events[0].revision > 0 then events[0].revision - 1 else revision;
      chans := chans[nextSub := Chan(start, [], events, false)];
      subs := subs + {nextSub};
      id := Some(nextSub);
      nextSub := nextSub + 1;
      assert View() == Subscribed(before, after);
    }

    /** The reader takes the next event, if one is buffered. */
    method Receive(id: nat) returns (e: Option<Event>)
      requires Valid()
      modifies this`chans
      ensures Valid() && View() == Received(old(View()), id)
      ensures e == if id in old(chans) && old(chans)[id].buffer != [] then Some(old(chans)[id].buffer[0]) else None
    {
      ReceiveKeeps(View(), id);
      if id !in chans || chans[id].buffer == [] { return None; }
      e := Some(chans[id].buffer[0]);
      chans := chans[id := chans[id].Take()];
    }

    /** The subscriber's context ends (store.go:569-577). */
    method Cancel(id: nat)
      requires Valid() && !stuck
      modifies this`chans, this`subs
      ensures Valid() && View() == Cancelled(old(View()), id)
    {
      CancelKeeps(View(), id);
      if id in subs {
        subs := subs - {id};
        chans := chans[id := chans[id].Close()];
      }
    }

    /** CompactHistory; `deletes` says the range deletion succeeds. */
    method Compact(b: Budget, deletes: bool)
      requires Valid()
      modifies this`db, this`first
      ensures Valid() && View() == if deletes then Compacted(old(View()), b) else old(View())
    {
      ghost var before := View();
      var db' := CompactHistory(db, b.cutoff, b.maxBytes, b.usage, b.usage2, b.size, log, first);
      if deletes {
        db := db';
        first := first + CutBy(before, b);
        CompactSteps(before, b, View());
      }
    }

    /** SnapshotAt with nothing committing meanwhile. */
    method At(r: uint64) returns (res: SnapshotResult)
      requires Valid() && !stuck
      ensures r == 0 || r == revision ==> res == Found(Snapshot(revision, observed, mem))
      ensures r > revision ==> res == NotYet
      ensures 0 < r < revision ==> res == ReadAt(Snapshot(revision, observed, mem), log, |log|, first, r)
    {
      var d := db;
      ghost var l := log;
      ghost var f := first;
      ghost var kept;
      res, kept := SnapshotAt(Snapshot(revision, observed, mem), _ => d, r, _ => l, _ => f, log);
    }
  }
}
