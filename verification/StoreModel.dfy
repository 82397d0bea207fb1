/** The revisioned store as a state machine over its steps, with the full history kept beside it
    (internal/store/store.go). */
module StoreModel {
  import opened Entities
  import opened Keys
  import opened Journal
  import opened Database
  import opened Recovery
  import opened Retention

  // ---------------------------------------------------------------- subscriptions

  /** A subscription channel: what its reader took, what is buffered, and whether it is closed.
      `start` is the revision just before the first event delivered to it. */
  datatype Chan = Chan(start: nat, received: seq<Event>, buffer: seq<Event>, closed: bool) {

    function Position(): nat { start + |received| + |buffer| }

    function Stream(): seq<Event> { received + buffer }

    /** Sending on a closed channel panics, and on a full one blocks. */
    function Send(e: Event): Chan
      requires !closed && |buffer| < CAPACITY
    {
      this.(buffer := buffer + [e])
    }

    /** Closing a closed channel panics. */
    function Close(): Chan
      requires !closed
    {
      this.(closed := true)
    }

    function Take(): Chan
      requires buffer != []
    {
      this.(received := received + [buffer[0]], buffer := buffer[1..])
    }
  }

  const CAPACITY: nat := 256

  /** Received plus buffered events are a gap-free run of the log; while the channel is registered
      they reach the current revision, and it is open exactly while registered. */
  ghost predicate InStep(c: Chan, log: seq<Event>, registered: bool) {
    && c.Position() <= |log| && |c.buffer| <= CAPACITY
    && c.Stream() == log[c.start..c.Position()]
    && (registered <==> !c.closed)
    && (registered ==> c.Position() == |log|)
  }

  // ---------------------------------------------------------------- the store

  /** A mutation; `value` is absent for a nil value. */
  datatype Mutation = Mutation(key: EntityKey, domainId: string, peerId: string, reason: string,
                               delete: bool, value: Option<Entity>)

  /** The value of a mutation belongs to its key: same kind, same id. */
  predicate Matched(m: Mutation) {
    m.value.Some? ==> OwnKey(m.value.value) == m.key
  }

  datatype State = State(db: Db, revision: uint64, observed: Option<Time>, mem: Mem,
                         chans: map<nat, Chan>, subs: set<nat>, nextSub: nat, stuck: bool)

  /** The store together with its whole history: every event ever committed, and the first revision
      still in the journal. */
  datatype World = World(s: State, log: seq<Event>, first: nat)

  ghost predicate Inv(w: World) {
    && Faithful(w.log) && |w.log| == w.s.revision
    && w.s.mem == StateAt(w.log, |w.log|)
    && EntitiesHold(w.s.db, w.s.mem)
    && EventsHold(w.s.db, w.log, w.first)
    && RevisionHolds(w.s.db, |w.log|)
    && ChansInv(w)
  }

  ghost predicate ChansInv(w: World) {
    && w.s.subs <= w.s.chans.Keys
    && (forall id | id in w.s.chans :: id < w.s.nextSub && InStep(w.s.chans[id], w.log, id in w.s.subs))
  }

  // ---------------------------------------------------------------- Apply

  predicate Acceptable(m: Mutation) {
    m.key.id != "" && !m.key.kind.UnknownKind? && (m.delete || m.value.Some?)
  }

  function EventFor(s: State, m: Mutation, now: Time): (e: Event)
    requires Acceptable(m)
  {
    var rev := AddU64(s.revision, 1);
    Event(rev, now, m.key, m.domainId, m.peerId, Get(s.mem, m.key),
          if m.delete then None else Some(Stamped(m.value.value, rev, now)), m.reason)
  }

  /** The batch of one change: the entity, its event and the revision counter. */
  function Batch(db: Db, e: Event): Db {
    var db' := if e.after.Some? then db[DbKey(e.key) := EntityCell(e.after.value)] else db - {DbKey(e.key)};
    db'[EventKey(e.revision) := EventCell(e)][META_KEY := RevisionCell(e.revision)]
  }

  /** One registered channel is offered an event: buffered if there is room, else closed. */
  function Offer(c: Chan, e: Event): Chan
    requires !c.closed
  {
    if |c.buffer| < CAPACITY then c.Send(e) else c.Close()
  }

  /** Offers an event to every registered channel. */
  function OfferAll(chans: map<nat, Chan>, subs: set<nat>, e: Event): map<nat, Chan>
    requires subs <= chans.Keys && forall id | id in subs :: !chans[id].closed
  {
    map id | id in chans :: if id in subs then Offer(chans[id], e) else chans[id]
  }

  /** The channels that stay registered. */
  function Fitting(chans: map<nat, Chan>, subs: set<nat>): set<nat>
    requires subs <= chans.Keys
  {
    set id | id in subs && |chans[id].buffer| < CAPACITY
  }

  /** A committed mutation. */
  ghost function Applied(w: World, m: Mutation, now: Time): World
    requires Inv(w) && Acceptable(m) && w.s.revision < MAX_U64
  {
    var e := EventFor(w.s, m, now);
    w.(s := w.s.(db := Batch(w.s.db, e), revision := e.revision, observed := Some(now),
                 mem := Put(w.s.mem, m.key, e.after),
                 chans := OfferAll(w.s.chans, w.s.subs, e), subs := Fitting(w.s.chans, w.s.subs)),
       log := w.log + [e])
  }

  lemma AppliedMem(w: World, m: Mutation, now: Time)
    requires Inv(w) && Acceptable(m) && w.s.revision < MAX_U64
    ensures Applied(w, m, now).s.mem ==
            Put(w.s.mem, m.key, if m.delete then None else Some(Stamped(m.value.value, w.s.revision + 1, now)))
  {
  }

  lemma BatchEntities(db: Db, mem: Mem, e: Event)
    requires EntitiesHold(db, mem) && !e.key.kind.UnknownKind?
    ensures EntitiesHold(Batch(db, e), Put(mem, e.key, e.after))
  {
    forall k: EntityKey | !k.kind.UnknownKind?
      ensures Read(Batch(db, e), DbKey(k)) == ToCell(Get(Put(mem, e.key, e.after), k))
    {
      KeySpacesApart(k, e.revision);
      assert Read(db, DbKey(k)) == ToCell(Get(mem, k));
      if k != e.key && DbKey(k) == DbKey(e.key) { DbKeyInjective(k, e.key); }
    }
  }

  lemma BatchReads(db: Db, e: Event, r: uint64)
    requires !e.key.kind.UnknownKind?
    ensures Read(Batch(db, e), EventKey(r)) == if r == e.revision then Some(EventCell(e)) else Read(db, EventKey(r))
    ensures Read(Batch(db, e), META_KEY) == Some(RevisionCell(e.revision))
  {
    KeySpacesApart(e.key, r);
    EventKeyOrder(r, e.revision);
  }

  lemma BatchEventKeys(db: Db, e: Event, x: string)
    requires !e.key.kind.UnknownKind? && x in Batch(db, e) && EVENT_PREFIX <= x
    ensures x in db || x == EventKey(e.revision)
  {
    KeySpacesApart(e.key, 0);
  }

  lemma BatchEvents(db: Db, log: seq<Event>, first: nat, e: Event)
    requires EventsHold(db, log, first) && |log| < MAX_U64 && e.revision == |log| + 1 && !e.key.kind.UnknownKind?
    ensures EventsHold(Batch(db, e), log + [e], first) && RevisionHolds(Batch(db, e), |log| + 1)
  {
    forall r: uint64 ensures Read(Batch(db, e), EventKey(r)) == EventAt(log + [e], first, r) {
      BatchReads(db, e, r);
      assert Read(db, EventKey(r)) == EventAt(log, first, r);
    }
    forall x | x in Batch(db, e) && EVENT_PREFIX <= x ensures exists r: uint64 :: x == EventKey(r) {
      BatchEventKeys(db, e, x);
    }
    BatchReads(db, e, 0);
  }

  lemma OfferInStep(c: Chan, log: seq<Event>, e: Event, registered: bool)
    requires InStep(c, log, registered)
    ensures registered ==> InStep(Offer(c, e), log + [e], |c.buffer| < CAPACITY)
    ensures !registered ==> InStep(c, log + [e], false)
  {
    if registered && |c.buffer| < CAPACITY {
      assert c.received + (c.buffer + [e]) == (c.received + c.buffer) + [e];
    }
  }

  lemma ApplyKeepsChans(w: World, m: Mutation, now: Time)
    requires Inv(w) && Acceptable(m) && w.s.revision < MAX_U64
    ensures ChansInv(Applied(w, m, now))
  {
    var w' := Applied(w, m, now);
    var e := EventFor(w.s, m, now);
    forall id | id in w'.s.chans ensures InStep(w'.s.chans[id], w'.log, id in w'.s.subs) {
      OfferInStep(w.s.chans[id], w.log, e, id in w.s.subs);
    }
  }

  /** Every committed mutation keeps the store in step with its history. */
  lemma ApplyKeeps(w: World, m: Mutation, now: Time)
    requires Inv(w) && Acceptable(m) && Matched(m) && w.s.revision < MAX_U64
    ensures Inv(Applied(w, m, now))
  {
    var e := EventFor(w.s, m, now);
    BatchEntities(w.s.db, w.s.mem, e);
    BatchEvents(w.s.db, w.log, w.first, e);
    ApplyKeepsChans(w, m, now);
    StateExtends(w.log, [e], |w.log|);
    StateStep(w.log + [e], |w.log|);
    FaithfulMore(w.log, e);
  }

  // ---------------------------------------------------------------- Subscribe, Receive, Cancel

  /** The replayed events: at most ten thousand of the retained ones after `after`. */
  function Backlog(log: seq<Event>, first: nat, after: uint64): (r: seq<Event>)
    requires 1 <= first <= |log| + 1
  {
    var all := Retained(log, first, after, 0);
    all[..Min(|all|, 10000)]
  }

  function StartOf(log: seq<Event>, backlog: seq<Event>): nat {
    if backlog == [] || backlog[0].revision == 0 then |log| else backlog[0].revision - 1
  }

  /** A backlog that exceeds the channel blocks the subscriber while it holds the lock, for good. */
  ghost function Subscribed(w: World, after: uint64): World
    requires Inv(w)
  {
    var backlog := Backlog(w.log, w.first, after);
    if |backlog| > CAPACITY then w.(s := w.s.(stuck := true))
    else
      var c := Chan(StartOf(w.log, backlog), [], backlog, false);
      w.(s := w.s.(chans := w.s.chans[w.s.nextSub := c], subs := w.s.subs + {w.s.nextSub}, nextSub := w.s.nextSub + 1))
  }

  /** Where the stream of a subscription begins: after the later of `after` and what retention cut,
      but no later than now. */
  function StreamStart(w: World, after: uint64): (r: nat)
    requires 1 <= w.first
  {
    if after == MAX_U64 || after < w.first - 1 then w.first - 1
    else if after > |w.log| then |w.log|
    else after
  }

  /** A backlog that fits is the whole log from the stream's start on. */
  lemma BacklogIsSuffix(w: World, after: uint64)
    requires Inv(w)
    ensures var backlog := Backlog(w.log, w.first, after);
            && StreamStart(w, after) <= |w.log|
            && |backlog| == Min(|w.log| - StreamStart(w, after), 10000)
            && (|backlog| <= CAPACITY ==> backlog == w.log[StreamStart(w, after)..]
                                          && StartOf(w.log, backlog) == StreamStart(w, after))
  {
    var start := StreamStart(w, after);
    assert Retained(w.log, w.first, after, 0) == w.log[start..];
    if start < |w.log| { assert FaithfulAt(w.log, start); }
  }

  /** The stream starts where the subscriber asked exactly when nothing after `after` was cut and
      `after` is not in the future. */
  lemma StreamStartExact(w: World, after: uint64)
    requires Inv(w) && after < MAX_U64
    ensures StreamStart(w, after) == after <==> w.first - 1 <= after <= w.s.revision
  {
  }

  /** Subscribing blocks exactly when more events than the channel holds wait after the start. */
  lemma SubscribeBlocks(w: World, after: uint64)
    requires Inv(w) && !w.s.stuck
    ensures Subscribed(w, after).s.stuck <==> |w.log| - StreamStart(w, after) > 256
  {
    BacklogIsSuffix(w, after);
  }

  /** WatchTopology's expiry check. */
  predicate WatchRefused(oldest: uint64, after: uint64) {
    oldest > 0 && AddU64(after, 1) < oldest
  }

  /** What OldestRevision reads. */
  function OldestOf(w: World): (r: nat) {
    if w.first <= |w.log| then w.first else 0
  }

  /** Over a non-empty journal the check refuses exactly the watches, not ahead of the store, that
      could not start where they asked. Over an empty one it refuses nothing, and only a watch from
      the current revision starts where it asked: any earlier one skips what was cut. */
  lemma WatchStartsExactly(w: World, after: uint64)
    requires Inv(w) && after <= w.s.revision
    ensures w.first <= |w.log| ==>
              (!WatchRefused(OldestOf(w), after) <==> after < MAX_U64 && StreamStart(w, after) == after)
    ensures w.first > |w.log| ==>
              !WatchRefused(OldestOf(w), after) && StreamStart(w, after) == w.s.revision
    ensures !WatchRefused(OldestOf(w), after) ==>
              (StreamStart(w, after) == after <==> w.first <= |w.log| || after == w.s.revision)
  {
  }

  lemma SubscribeKeeps(w: World, after: uint64)
    requires Inv(w)
    ensures Inv(Subscribed(w, after))
  {
    BacklogIsSuffix(w, after);
    var backlog := Backlog(w.log, w.first, after);
    if |backlog| <= CAPACITY {
      NewChanInStep(w.log, StreamStart(w, after), backlog);
      ChanAdded(w, Chan(StreamStart(w, after), [], backlog, false));
    }
  }

  lemma NewChanInStep(log: seq<Event>, start: nat, backlog: seq<Event>)
    requires start <= |log| && backlog == log[start..] && |backlog| <= CAPACITY
    ensures InStep(Chan(start, [], backlog, false), log, true)
  {
    assert [] + backlog == backlog;
  }

  lemma ChanAdded(w: World, c: Chan)
    requires ChansInv(w) && InStep(c, w.log, true)
    ensures var s := w.s.(chans := w.s.chans[w.s.nextSub := c], subs := w.s.subs + {w.s.nextSub},
                          nextSub := w.s.nextSub + 1);
            ChansInv(w.(s := s))
  {
    assert w.s.nextSub !in w.s.chans;
  }

  ghost function Received(w: World, id: nat): World {
    if id in w.s.chans && w.s.chans[id].buffer != []
    then w.(s := w.s.(chans := w.s.chans[id := w.s.chans[id].Take()]))
    else w
  }

  lemma ReceiveKeeps(w: World, id: nat)
    requires Inv(w)
    ensures Inv(Received(w, id))
  {
    if id in w.s.chans && w.s.chans[id].buffer != [] {
      var c := w.s.chans[id];
      assert c.received + [c.buffer[0]] + c.buffer[1..] == c.received + c.buffer;
    }
  }

  ghost function Cancelled(w: World, id: nat): World
    requires Inv(w)
  {
    if id in w.s.subs
    then w.(s := w.s.(chans := w.s.chans[id := w.s.chans[id].Close()], subs := w.s.subs - {id}))
    else w
  }

  lemma CancelKeeps(w: World, id: nat)
    requires Inv(w)
    ensures Inv(Cancelled(w, id))
  {
  }

  // ---------------------------------------------------------------- CompactHistory and Open

  datatype Budget = Budget(cutoff: Time, maxBytes: uint64, usage: uint64, usage2: uint64, size: Event -> uint64)

  ghost function CutBy(w: World, b: Budget): nat
    requires Inv(w)
  {
    CutLength(w.log[w.first - 1..], b.cutoff, b.maxBytes, b.usage, b.usage2, b.size)
  }

  ghost function Compacted(w: World, b: Budget): World
    requires Inv(w)
  {
    w.(s := w.s.(db := Cut(w.s.db, w.first, CutBy(w, b))), first := w.first + CutBy(w, b))
  }

  lemma CompactKeeps(w: World, b: Budget)
    requires Inv(w)
    ensures Inv(Compacted(w, b))
  {
    CutEvents(w.s.db, w.log, w.first, CutBy(w, b));
    CutKeepsState(w.s.db, w.s.mem, |w.log|, w.first, CutBy(w, b));
  }

  lemma CompactSteps(w: World, b: Budget, w': World)
    requires Inv(w) && w' == World(w.s.(db := Cut(w.s.db, w.first, CutBy(w, b))), w.log, w.first + CutBy(w, b))
    ensures Inv(w') && w' == Compacted(w, b)
  {
    CompactKeeps(w, b);
  }

  function StoredRevision(db: Db): uint64 {
    match Read(db, META_KEY)
    case Some(RevisionCell(n)) => n
    case _ => 0
  }

  function StoredObserved(db: Db): Option<Time> {
    if StoredRevision(db) == 0 then None
    else
      match Read(db, EventKey(StoredRevision(db)))
      case Some(EventCell(e)) => Some(e.observed)
      case _ => None
  }

  /** A restart: everything in memory is rebuilt from the database, and no subscription survives. */
  ghost function Reopened(w: World): World {
    if Loaded(w.s.db).None? then w
    else w.(s := State(w.s.db, StoredRevision(w.s.db), StoredObserved(w.s.db), Loaded(w.s.db).value,
                       map[], {}, 0, false))
  }

  lemma InvOwnKeyed(w: World)
    requires Inv(w)
    ensures OwnKeyed(w.s.mem)
  {
    forall k | k in w.s.mem ensures OwnKey(w.s.mem[k]) == k && !k.kind.UnknownKind? {
      StampIsLastTouch(w.log, k);
    }
  }

  /** Reloading gives the same revision and the same five maps as memory. */
  lemma ReopenGivesMemory(w: World)
    requires Inv(w)
    ensures Loaded(w.s.db) == Some(w.s.mem) && StoredRevision(w.s.db) == w.s.revision
    ensures Inv(Reopened(w))
  {
    InvOwnKeyed(w);
    LoadedIsMem(w.s.db, w.s.mem);
  }

  // ---------------------------------------------------------------- runs

  datatype Step =
    | ApplyStep(m: Mutation, now: Time, live: bool, commits: bool)
    | SubscribeStep(after: uint64)
    | ReceiveStep(id: nat)
    | CancelStep(id: nat)
    | CompactStep(budget: Budget, deletes: bool)
    | ReopenStep

  /** The steps that need the store's lock. */
  predicate Locks(step: Step) {
    step.ApplyStep? || step.SubscribeStep? || step.CancelStep?
  }

  /** One step; a refused or failed one changes nothing, and no step passes a held lock. */
  ghost function Next(w: World, step: Step): World
    requires Inv(w)
  {
    if w.s.stuck && Locks(step) then w
    else match step
      case ApplyStep(m, now, live, commits) =>
        if live && Acceptable(m) && commits && w.s.revision < MAX_U64 then Applied(w, m, now) else w
      case SubscribeStep(after) => Subscribed(w, after)
      case ReceiveStep(id) => Received(w, id)
      case CancelStep(id) => Cancelled(w, id)
      case CompactStep(b, deletes) => if deletes then Compacted(w, b) else w
      case ReopenStep => Reopened(w)
  }

  /** The one thing asked of callers: a mutation's value belongs to its key. */
  predicate Sane(step: Step) {
    step.ApplyStep? ==> Matched(step.m)
  }

  lemma StepKeeps(w: World, step: Step)
    requires Inv(w) && Sane(step)
    ensures Inv(Next(w, step))
  {
    match step
    case ApplyStep(m, now, live, commits) =>
      if Acceptable(m) && w.s.revision < MAX_U64 { ApplyKeeps(w, m, now); }
    case SubscribeStep(after) => SubscribeKeeps(w, after);
    case ReceiveStep(id) => ReceiveKeeps(w, id);
    case CancelStep(id) => CancelKeeps(w, id);
    case CompactStep(b, _) => CompactKeeps(w, b);
    case ReopenStep => ReopenGivesMemory(w);
  }

  /** History only grows, and the journal is only cut from the front. */
  lemma StepGrows(w: World, step: Step)
    requires Inv(w)
    ensures w.log <= Next(w, step).log && w.first <= Next(w, step).first
  {
  }

  /** The state after a run of steps. */
  ghost function Run(w: World, steps: seq<Step>): (r: World)
    requires Inv(w) && forall i | 0 <= i < |steps| :: Sane(steps[i])
    ensures Inv(r) && w.log <= r.log && w.first <= r.first
    decreases |steps|
  {
    if steps == [] then w
    else
      var before := Run(w, steps[..|steps| - 1]);
      StepKeeps(before, steps[|steps| - 1]);
      StepGrows(before, steps[|steps| - 1]);
      Next(before, steps[|steps| - 1])
  }

  const EMPTY := World(State(map[], 0, None, map[], map[], {}, 0, false), [], 1)

  lemma EmptyInv()
    ensures Inv(EMPTY)
  {
    forall k: EntityKey ensures Read(EMPTY.s.db, DbKey(k)) == ToCell(Get(EMPTY.s.mem, k)) {}
  }

  ghost predicate ReachedBy(w: World, steps: seq<Step>) {
    (forall i | 0 <= i < |steps| :: Sane(steps[i])) && Inv(EMPTY) && w == Run(EMPTY, steps)
  }

  ghost predicate Reachable(w: World) {
    exists steps :: ReachedBy(w, steps)
  }

  lemma RunMore(w: World, steps: seq<Step>, step: Step)
    requires Inv(w) && (forall i | 0 <= i < |steps| :: Sane(steps[i])) && Sane(step)
    ensures forall i | 0 <= i < |steps + [step]| :: Sane((steps + [step])[i])
    ensures Run(w, steps + [step]) == Next(Run(w, steps), step)
  {
    assert (steps + [step])[..|steps|] == steps;
  }

  lemma ReachedMore(w: World, steps: seq<Step>, step: Step)
    requires ReachedBy(w, steps) && Sane(step)
    ensures Inv(w) && ReachedBy(Next(w, step), steps + [step])
  {
    RunMore(EMPTY, steps, step);
  }

  /** One more step from a reachable state. */
  lemma StepReaches(w: World, step: Step)
    requires Reachable(w) && Sane(step)
    ensures Inv(w) && Reachable(Next(w, step))
  {
    var steps :| ReachedBy(w, steps);
    ReachedMore(w, steps, step);
  }

  /** What every reachable state keeps, in the store's own terms: the retained event revisions are
      empty or exactly first..revision, a restart would give back the same revision and maps, and
      every stored entity carries the revision of the last mutation that touched it. */
  lemma ReachableKeeps(w: World)
    requires Reachable(w)
    ensures Inv(w)
    ensures forall r: uint64 :: EventKey(r) in w.s.db <==> w.first <= r <= w.s.revision
    ensures Reopened(w).s.mem == w.s.mem && Reopened(w).s.revision == w.s.revision
    ensures forall k | k in w.s.mem :: Stamp(w.s.mem[k]) == LastTouch(w.log, k)
  {
    forall r: uint64 ensures EventKey(r) in w.s.db <==> w.first <= r <= w.s.revision {
      assert Read(w.s.db, EventKey(r)) == EventAt(w.log, w.first, r);
    }
    ReopenGivesMemory(w);
    forall k | k in w.s.mem ensures Stamp(w.s.mem[k]) == LastTouch(w.log, k) {
      StampIsLastTouch(w.log, k);
    }
  }

  /** A restart also keeps the observation time, exactly when the newest event is still retained. */
  lemma ReopenObserved(w: World)
    requires Inv(w) && w.s.revision > 0
    ensures Reopened(w).s.observed == if w.first <= w.s.revision then Some(w.log[w.s.revision - 1].observed) else None
  {
    ReopenGivesMemory(w);
    assert Read(w.s.db, EventKey(w.s.revision)) == EventAt(w.log, w.first, w.s.revision);
  }

  /** A blocked subscriber ends all writing until the process restarts. */
  lemma {:induction false} StuckForGood(w: World, steps: seq<Step>)
    requires Inv(w) && w.s.stuck && forall i | 0 <= i < |steps| :: Sane(steps[i]) && !steps[i].ReopenStep?
    ensures Run(w, steps).s.stuck && Run(w, steps).log == w.log && Run(w, steps).s.mem == w.s.mem
    decreases |steps|
  {
    if steps != [] {
      StuckForGood(w, steps[..|steps| - 1]);
      StuckStep(Run(w, steps[..|steps| - 1]), steps[|steps| - 1]);
    }
  }

  lemma StuckStep(w: World, step: Step)
    requires Inv(w) && w.s.stuck && !step.ReopenStep?
    ensures var w' := Next(w, step); w'.s.stuck && w'.log == w.log && w'.s.mem == w.s.mem
  {
  }

  // ---------------------------------------------------------------- subscriptions over runs

  /** What a step may do to a channel: its start stays, and once closed it is never sent to or
      closed again, so that its reader only drains what is left. */
  ghost predicate Undisturbed(c: Chan, c': Chan) {
    && c'.start == c.start
    && (c.closed ==> c'.closed && c'.Stream() == c.Stream())
  }

  lemma TakeUndisturbed(c: Chan)
    requires c.buffer != []
    ensures Undisturbed(c, c.Take())
  {
    assert c.received + [c.buffer[0]] + c.buffer[1..] == c.received + c.buffer;
  }

  lemma ApplyUndisturbed(w: World, m: Mutation, now: Time, id: nat)
    requires Inv(w) && Acceptable(m) && w.s.revision < MAX_U64 && id in w.s.chans
    ensures id in Applied(w, m, now).s.chans && Undisturbed(w.s.chans[id], Applied(w, m, now).s.chans[id])
  {
    assert InStep(w.s.chans[id], w.log, id in w.s.subs);
  }

  lemma StepUndisturbed(w: World, step: Step, id: nat)
    requires Inv(w) && !step.ReopenStep? && id in w.s.chans
    ensures id in Next(w, step).s.chans && Undisturbed(w.s.chans[id], Next(w, step).s.chans[id])
  {
    assert InStep(w.s.chans[id], w.log, id in w.s.subs) && id < w.s.nextSub;
    match step
    case ApplyStep(m, now, live, commits) =>
      if Acceptable(m) && w.s.revision < MAX_U64 { ApplyUndisturbed(w, m, now, id); }
    case ReceiveStep(k) =>
      if w.s.chans[id].buffer != [] { TakeUndisturbed(w.s.chans[id]); }
    case _ =>
  }

  /** The same over any run without a restart: a channel is closed at most once and never sent to
      afterwards. */
  lemma {:induction false} RunUndisturbed(w: World, steps: seq<Step>, id: nat)
    requires Inv(w) && (forall i | 0 <= i < |steps| :: Sane(steps[i]) && !steps[i].ReopenStep?) && id in w.s.chans
    ensures id in Run(w, steps).s.chans && Undisturbed(w.s.chans[id], Run(w, steps).s.chans[id])
    decreases |steps|
  {
    if steps != [] {
      RunUndisturbed(w, steps[..|steps| - 1], id);
      StepUndisturbed(Run(w, steps[..|steps| - 1]), steps[|steps| - 1], id);
    }
  }

  /** Channel id carries exactly the revisions after+1..k of the log: k is the current revision
      while the channel is registered, and the channel is open exactly then. */
  ghost predicate Follows(w: World, id: nat, after: nat) {
    && id in w.s.chans
    && var c := w.s.chans[id];
       && c.start == after && InStep(c, w.log, id in w.s.subs)
       && forall i | 0 <= i < |c.Stream()| :: c.Stream()[i].revision == after + 1 + i
  }

  /** The stream promised to a subscriber: subscribing at `after`, with nothing after it cut, `after`
      not in the future and at most 256 events behind, opens a channel that follows the log from
      `after` through any further steps of the process. */
  lemma SubscriberSeesEverything(w: World, after: uint64, steps: seq<Step>)
    requires Inv(w) && !w.s.stuck
    requires w.first - 1 <= after <= w.s.revision && w.s.revision - after <= 256 && after < MAX_U64
    requires forall i | 0 <= i < |steps| :: Sane(steps[i]) && !steps[i].ReopenStep?
    ensures Inv(Next(w, SubscribeStep(after)))
    ensures Follows(Run(Next(w, SubscribeStep(after)), steps), w.s.nextSub, after)
  {
    StepKeeps(w, SubscribeStep(after));
    var w1 := Next(w, SubscribeStep(after));
    BacklogIsSuffix(w, after);
    StreamStartExact(w, after);
    RunUndisturbed(w1, steps, w.s.nextSub);
    InStepFollows(Run(w1, steps), w.s.nextSub);
  }

  lemma InStepFollows(w: World, id: nat)
    requires Inv(w) && id in w.s.chans
    ensures Follows(w, id, w.s.chans[id].start)
  {
    var c := w.s.chans[id];
    forall i | 0 <= i < |c.Stream()| ensures c.Stream()[i].revision == c.start + 1 + i {
      assert FaithfulAt(w.log, c.start + i);
    }
  }
}
