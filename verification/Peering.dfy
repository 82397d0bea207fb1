/** Peer operations guarded by resource versions (internal/api/collector.go:43-206, 238-279). */
module Peering {
  import opened Entities
  import opened Journal
  import opened StoreModel
  import opened Stores

  function PeerKey(id: string): EntityKey {
    EntityKey(PeerKind, id)
  }

  function PeerAt(mem: Mem, id: string): Option<Peer> {
    match Get(mem, PeerKey(id))
    case Some(PeerEntity(p)) => Some(p)
    case _ => None
  }

  /** validatePeer; `sound` stands for its tests of addresses, AS numbers and session options. */
  predicate ValidPeer(p: Peer, mem: Mem, sound: Peer -> bool) {
    p.id != "" && p.domainId != "" && EntityKey(DomainKind, p.domainId) in mem && sound(p)
  }

  /** redactPeer. */
  function Redacted(p: Peer): Peer {
    p.(secret := "")
  }

  /** One write that an operation makes to the store. ImportPut and ImportRemove are the steps of a
      configuration import. */
  datatype PeerOp =
    | Create(p: Peer)
    | Update(p: Peer, expected: uint64)
    | Delete(id: string, expected: uint64)
    | SetAdmin(id: string, expected: uint64, enabled: bool)
    | ImportPut(p: Peer)
    | ImportRemove(id: string, domainId: string)

  datatype Refusal = Invalid | Exists | Missing | Aborted

  datatype Plan = Write(m: Mutation) | Refuse(why: Refusal)

  function PutPeer(p: Peer, reason: string): Mutation {
    Mutation(PeerKey(p.id), p.domainId, "", reason, false, Some(PeerEntity(p)))
  }

  function RemovePeer(id: string, domainId: string, reason: string): Mutation {
    Mutation(PeerKey(id), domainId, "", reason, true, None)
  }

  function KeepSecret(p: Peer, existing: Option<Peer>): Peer {
    if existing.Some? && p.secret == "" then p.(secret := existing.value.secret) else p
  }

  function ImportPeer(mem: Mem, p: Peer): Mutation {
    PutPeer(KeepSecret(p, PeerAt(mem, p.id)), "peer configuration imported")
  }

  /** What an operation would write, given the current maps. */
  function PlanOf(mem: Mem, op: PeerOp, sound: Peer -> bool): Plan {
    match op
    case Create(p) =>
      if !ValidPeer(p, mem, sound) then Refuse(Invalid)
      else if PeerAt(mem, p.id).Some? then Refuse(Exists)
      else Write(PutPeer(p.(session := if p.enabled then SessionIdle else SessionDisabled), "peer created"))
    case Update(p, expected) =>
      if !ValidPeer(p, mem, sound) then Refuse(Invalid)
      else
        var existing := PeerAt(mem, p.id);
        if existing.None? then Refuse(Missing)
        else if expected != existing.value.resourceVersion then Refuse(Aborted)
        else
          var e := existing.value;
          Write(PutPeer(KeepSecret(p, existing).(session := e.session, receivedUpdates := e.receivedUpdates,
                                                 rejectedUpdates := e.rejectedUpdates), "peer updated"))
    case Delete(id, expected) =>
      var existing := PeerAt(mem, id);
      if existing.None? then Refuse(Missing)
      else if expected != existing.value.resourceVersion then Refuse(Aborted)
      else Write(RemovePeer(id, existing.value.domainId, "peer deleted"))
    case SetAdmin(id, expected, enabled) =>
      var existing := PeerAt(mem, id);
      if existing.None? then Refuse(Missing)
      else if expected != existing.value.resourceVersion then Refuse(Aborted)
      else
        var e := existing.value;
        Write(PutPeer(e.(enabled := enabled, session := if enabled then e.session else SessionDisabled),
                      "peer administrative state changed"))
    case ImportPut(p) => Write(ImportPeer(mem, p))
    case ImportRemove(id, domainId) => Write(RemovePeer(id, domainId, "peer removed by configuration import"))
  }

  /** The peer and version an operation is guarded by. */
  function Guard(op: PeerOp): Option<(string, uint64)> {
    match op
    case Update(p, v) => Some((p.id, v))
    case Delete(id, v) => Some((id, v))
    case SetAdmin(id, v, _) => Some((id, v))
    case _ => None
  }

  // ---------------------------------------------------------------- runs of operations

  /** Anything that may happen to the store between operations, or an operation with the outcome of
      its write. */
  datatype Act =
    | Operate(op: PeerOp, sound: Peer -> bool, now: Time, live: bool, commits: bool)
    | Other(step: Step)

  function StepOf(mem: Mem, act: Act): Option<Step> {
    match act
    case Operate(op, sound, now, live, commits) =>
      (match PlanOf(mem, op, sound)
       case Write(m) => Some(ApplyStep(m, now, live, commits))
       case Refuse(_) => None)
    case Other(step) => Some(step)
  }

  /** The operation's write reaches the store. */
  ghost predicate Commits(w: World, act: Act) {
    && act.Operate? && PlanOf(w.s.mem, act.op, act.sound).Write?
    && var m := PlanOf(w.s.mem, act.op, act.sound).m;
       act.live && act.commits && Acceptable(m) && w.s.revision < MAX_U64 && !w.s.stuck
  }

  ghost function Performed(w: World, act: Act): World
    requires Inv(w)
  {
    match StepOf(w.s.mem, act)
    case Some(step) => Next(w, step)
    case None => w
  }

  predicate Decent(act: Act) {
    act.Other? ==> Sane(act.step)
  }

  lemma PeerOwnKey(w: World, id: string)
    requires Inv(w) && PeerAt(w.s.mem, id).Some?
    ensures var p := PeerAt(w.s.mem, id).value;
            p.id == id && p.resourceVersion == LastTouch(w.log, PeerKey(id)) && 1 <= p.resourceVersion <= w.s.revision
  {
    StampIsLastTouch(w.log, PeerKey(id));
  }

  lemma PlanMatches(w: World, op: PeerOp, sound: Peer -> bool)
    requires Inv(w) && PlanOf(w.s.mem, op, sound).Write?
    ensures Matched(PlanOf(w.s.mem, op, sound).m)
  {
    if op.SetAdmin? { PeerOwnKey(w, op.id); }
  }

  lemma PerformKeeps(w: World, act: Act)
    requires Inv(w) && Decent(act)
    ensures Inv(Performed(w, act)) && w.log <= Performed(w, act).log
  {
    if act.Operate? && PlanOf(w.s.mem, act.op, act.sound).Write? {
      PlanMatches(w, act.op, act.sound);
    }
    if StepOf(w.s.mem, act).Some? {
      StepKeeps(w, StepOf(w.s.mem, act).value);
      StepGrows(w, StepOf(w.s.mem, act).value);
    }
  }

  ghost function PerformAll(w: World, acts: seq<Act>): (r: World)
    requires Inv(w) && forall i | 0 <= i < |acts| :: Decent(acts[i])
    ensures Inv(r) && w.log <= r.log
    decreases |acts|
  {
    if acts == [] then w
    else
      var before := PerformAll(w, acts[..|acts| - 1]);
      PerformKeeps(before, acts[|acts| - 1]);
      Performed(before, acts[|acts| - 1])
  }

  /** A guarded operation that commits found its expected version in the store, and leaves an event of
      a later revision on its peer. */
  lemma GuardedCommit(w: World, act: Act)
    requires Inv(w) && Commits(w, act) && Guard(act.op).Some?
    ensures var (id, v) := Guard(act.op).value;
            && PeerAt(w.s.mem, id).Some? && PeerAt(w.s.mem, id).value.resourceVersion == v
            && v <= w.s.revision
            && Performed(w, act).log == w.log + [EventFor(w.s, PlanOf(w.s.mem, act.op, act.sound).m, act.now)]
            && Performed(w, act).log[w.s.revision].key == PeerKey(id)
  {
    var (id, v) := Guard(act.op).value;
    PeerOwnKey(w, id);
  }

  /** A later touch means a later version. */
  lemma VersionMoved(log: seq<Event>, more: seq<Event>, k: EntityKey, r: nat)
    requires r < |log| && log <= more && log[r].key == k
    ensures LastTouch(more, k) > r
  {
  }

  /** At most one guarded operation commits for a peer and an expected version, whatever else happens
      in between: two that both commit in one run are the same one. */
  lemma VersionsSerialize(w: World, first: Act, between: seq<Act>, second: Act)
    requires Inv(w) && Decent(first) && (forall i | 0 <= i < |between| :: Decent(between[i]))
    requires Commits(w, first) && Guard(first.op).Some?
    requires second.Operate? && Guard(second.op) == Guard(first.op)
    ensures Inv(Performed(w, first))
    ensures !Commits(PerformAll(Performed(w, first), between), second)
  {
    PerformKeeps(w, first);
    GuardedCommit(w, first);
    var (id, v) := Guard(first.op).value;
    var w1 := Performed(w, first);
    var w2 := PerformAll(w1, between);
    VersionMoved(w1.log, w2.log, PeerKey(id), w.s.revision);
    if Commits(w2, second) {
      GuardedCommit(w2, second);
      PeerOwnKey(w2, id);
      assert false;
    }
  }

  // ---------------------------------------------------------------- requests that overlap

  // An operation reads the store in one call and writes to it in another, and other writes may come
  // between the two.

  datatype Request = Request(op: PeerOp, sound: Peer -> bool, now: Time)

  /** The request, reading state r, goes on to write. */
  ghost predicate Passes(r: World, q: Request) {
    PlanOf(r.s.mem, q.op, q.sound).Write?
  }

  /** The state after the request that read state r writes to state w. */
  ghost function Landed(r: World, w: World, q: Request): World
    requires Inv(w) && Passes(r, q)
  {
    Next(w, ApplyStep(PlanOf(r.s.mem, q.op, q.sound).m, q.now, true, true))
  }

  ghost predicate NotTouched(log: seq<Event>, more: seq<Event>, k: EntityKey) {
    forall i | |log| <= i < |more| :: more[i].key != k
  }

  ghost predicate Open(w: World) {
    Inv(w) && !w.s.stuck && w.s.revision < MAX_U64
  }

  lemma PlanAcceptable(w: World, op: PeerOp, sound: Peer -> bool)
    requires Inv(w) && PlanOf(w.s.mem, op, sound).Write? && !op.ImportPut? && !op.ImportRemove?
    ensures Acceptable(PlanOf(w.s.mem, op, sound).m)
  {
    PlanKey(w, op, sound);
    if PeerAt(w.s.mem, OpId(op)).Some? { StampIsLastTouch(w.log, PeerKey(OpId(op))); }
  }

  /** A stale write commits all the same: nothing checks the version again. */
  lemma LandedCommits(r: World, w: World, q: Request)
    requires Inv(r) && Open(w) && Passes(r, q) && !q.op.ImportPut? && !q.op.ImportRemove?
    ensures Inv(Landed(r, w, q)) && Landed(r, w, q).s.stuck == w.s.stuck
    ensures var m := PlanOf(r.s.mem, q.op, q.sound).m;
            && Acceptable(m) && m.key == PeerKey(OpId(q.op))
            && Landed(r, w, q).log == w.log + [EventFor(w.s, m, q.now)]
            && Landed(r, w, q).s.mem == Put(w.s.mem, m.key, EventFor(w.s, m, q.now).after)
  {
    PlanAcceptable(r, q.op, q.sound);
    PlanKey(r, q.op, q.sound);
    PlanMatches(r, q.op, q.sound);
    ApplyKeeps(w, PlanOf(r.s.mem, q.op, q.sound).m, q.now);
  }

  /** The version a request found still stands when it writes exactly if no commit to its peer came in
      between. */
  lemma VersionStandsExactly(r: World, w: World, q: Request)
    requires Inv(r) && Inv(w) && r.log <= w.log && Passes(r, q) && Guard(q.op).Some?
    ensures var (id, v) := Guard(q.op).value;
            (PeerAt(w.s.mem, id).Some? && PeerAt(w.s.mem, id).value.resourceVersion == v)
            <==> NotTouched(r.log, w.log, PeerKey(id))
  {
    var (id, v) := Guard(q.op).value;
    PeerOwnKey(r, id);
    if PeerAt(w.s.mem, id).Some? { PeerOwnKey(w, id); }
    if NotTouched(r.log, w.log, PeerKey(id)) {
      PeerStands(r, w, id);
    } else {
      var i :| |r.log| <= i < |w.log| && w.log[i].key == PeerKey(id);
      VersionMoved(w.log, w.log, PeerKey(id), i);
    }
  }

  lemma PeerStands(r: World, w: World, id: string)
    requires Inv(r) && Inv(w) && r.log <= w.log && NotTouched(r.log, w.log, PeerKey(id))
    ensures PeerAt(w.s.mem, id) == PeerAt(r.s.mem, id)
  {
    UntouchedKeeps(w.log, |r.log|, |w.log|, PeerKey(id));
    assert w.log[..|r.log|] == r.log[..|r.log|];
  }

  lemma GuardHeld(r: World, q: Request)
    requires Inv(r) && Passes(r, q) && Guard(q.op).Some?
    ensures var (id, v) := Guard(q.op).value; LastTouch(r.log, PeerKey(id)) == v <= |r.log|
  {
    PeerOwnKey(r, Guard(q.op).value.0);
  }

  /** A log in which k was last touched at v cannot hold a later touch of k. */
  lemma TouchBetween(log1: seq<Event>, e: Event, log2: seq<Event>, more: seq<Event>, k: EntityKey)
    requires log1 + [e] <= more && log2 <= more && e.key == k && LastTouch(log2, k) <= |log1|
    ensures |log2| <= |log1| && !NotTouched(log2, more, k)
  {
    assert more[|log1|] == (log1 + [e])[|log1|] == e;
  }

  /** Overlapping requests are serialized exactly as far as their peer stays untouched between read
      and write: of two with one guard, the one that writes second read before the first had written,
      and the first one's commit fell between its read and its write. */
  lemma OverlapDisturbs(r1: World, w1: World, first: Request, r2: World, w2: World, second: Request)
    requires Inv(r1) && Open(w1) && r1.log <= w1.log && Passes(r1, first) && Guard(first.op).Some?
    requires Inv(r2) && Inv(w2) && r2.log <= w2.log && Passes(r2, second)
    requires Guard(second.op) == Guard(first.op) && Landed(r1, w1, first).log <= w2.log
    ensures |r2.log| <= |w1.log|
    ensures !NotTouched(r2.log, w2.log, PeerKey(Guard(first.op).value.0))
  {
    LandedCommits(r1, w1, first);
    GuardHeld(r1, first);
    GuardHeld(r2, second);
    var k := PeerKey(Guard(first.op).value.0);
    TouchBetween(w1.log, EventFor(w1.s, PlanOf(r1.s.mem, first.op, first.sound).m, first.now), r2.log, w2.log, k);
  }

  /** The peer a mutation stores, if any. */
  function PeerOf(m: Mutation): Option<Peer> {
    if !m.delete && m.value.Some? && m.value.value.PeerEntity? then Some(m.value.value.peer) else None
  }

  /** A planned mutation deletes a peer or stores one. */
  ghost predicate OnPeer(m: Mutation) {
    m.delete || (m.value.Some? && m.value.value.PeerEntity?)
  }

  lemma PlanOnPeer(mem: Mem, op: PeerOp, sound: Peer -> bool)
    requires PlanOf(mem, op, sound).Write?
    ensures OnPeer(PlanOf(mem, op, sound).m)
  {
  }

  lemma WrittenPeer(mem: Mem, s: State, m: Mutation, now: Time, id: string)
    requires OnPeer(m) && Acceptable(m) && s.revision < MAX_U64
    ensures PeerAt(Put(mem, PeerKey(id), EventFor(s, m, now).after), id) ==
            if PeerOf(m).Some? then Some(PeerOf(m).value.(resourceVersion := s.revision + 1)) else None
  {
  }

  /** What lands is the peer as it was planned, whatever was stored when it did. */
  lemma LandedPeer(r: World, w: World, q: Request)
    requires Inv(r) && Open(w) && Passes(r, q) && !q.op.ImportPut? && !q.op.ImportRemove?
    ensures |Landed(r, w, q).log| == |w.log| + 1
    ensures Unversioned(PeerAt(Landed(r, w, q).s.mem, OpId(q.op)))
            == Unversioned(PeerOf(PlanOf(r.s.mem, q.op, q.sound).m))
  {
    LandedCommits(r, w, q);
    PlanOnPeer(r.s.mem, q.op, q.sound);
    WrittenPeer(w.s.mem, w.s, PlanOf(r.s.mem, q.op, q.sound).m, q.now, OpId(q.op));
  }

  /** Conversely two requests that read the same state both commit, and what the first one wrote is
      lost: the peer is as if only the second had come. */
  lemma OverlapLosesUpdate(w: World, first: Request, second: Request)
    requires Open(w) && w.s.revision + 1 < MAX_U64 && Passes(w, first) && Passes(w, second)
    requires OpId(first.op) == OpId(second.op)
    requires !first.op.ImportPut? && !first.op.ImportRemove? && !second.op.ImportPut? && !second.op.ImportRemove?
    ensures Inv(Landed(w, w, first)) && |Landed(w, Landed(w, w, first), second).log| == |w.log| + 2
    ensures Unversioned(PeerAt(Landed(w, Landed(w, w, first), second).s.mem, OpId(second.op)))
            == Unversioned(PeerAt(Landed(w, w, second).s.mem, OpId(second.op)))
  {
    LandedCommits(w, w, first);
    LandedPeer(w, w, second);
    LandedPeer(w, Landed(w, w, first), second);
  }

  // ---------------------------------------------------------------- the service

  datatype Reply = Done(peer: Option<Peer>) | Rejected(why: Refusal) | Failed

  /** The stored peer as a reply may show it. */
  function Shown(mem: Mem, id: string): Option<Peer> {
    match PeerAt(mem, id)
    case Some(p) => Some(Redacted(p))
    case None => None
  }

  /** No reply carries a session secret. */
  predicate Discreet(r: Reply) {
    r.Done? && r.peer.Some? ==> r.peer.value.secret == ""
  }

  function OpId(op: PeerOp): string {
    match op
    case Create(p) => p.id
    case Update(p, _) => p.id
    case Delete(id, _) => id
    case SetAdmin(id, _, _) => id
    case ImportPut(p) => p.id
    case ImportRemove(id, _) => id
  }

  lemma PlanKey(w: World, op: PeerOp, sound: Peer -> bool)
    requires Inv(w) && PlanOf(w.s.mem, op, sound).Write?
    ensures PlanOf(w.s.mem, op, sound).m.key == PeerKey(OpId(op))
  {
    if op.SetAdmin? { PeerOwnKey(w, op.id); }
  }

  // ---------------------------------------------------------------- imports

  /** What is stored under an id once the first n imported peers are written. */
  function Imported(existing: Option<Peer>, peers: seq<Peer>, id: string, n: nat): (r: Option<Peer>)
    requires n <= |peers|
  {
    if n == 0 then existing
    else
      var before := Imported(existing, peers, id, n - 1);
      if peers[n - 1].id == id then Some(KeepSecret(peers[n - 1], before)) else before
  }

  /** The last peer imported under an id wins, and an empty secret keeps the one before it. */
  lemma {:induction false} LastImportWins(existing: Option<Peer>, peers: seq<Peer>, id: string, n: nat, j: nat)
    requires j < n <= |peers| && peers[j].id == id && forall i | j < i < n :: peers[i].id != id
    ensures Imported(existing, peers, id, n) == Some(KeepSecret(peers[j], Imported(existing, peers, id, j)))
  {
    if j < n - 1 { LastImportWins(existing, peers, id, n - 1, j); }
  }

  lemma {:induction false} NotImported(existing: Option<Peer>, peers: seq<Peer>, id: string, n: nat)
    requires n <= |peers| && forall i | 0 <= i < n :: peers[i].id != id
    ensures Imported(existing, peers, id, n) == existing
  {
    if n > 0 { NotImported(existing, peers, id, n - 1); }
  }

  /** A peer apart from its version. */
  function Unversioned(p: Option<Peer>): Option<Peer> {
    if p.Some? then Some(p.value.(resourceVersion := 0)) else None
  }

  /** The peer under an id is as the first n imported peers leave it. */
  ghost predicate ImportedAt(mem: Mem, mem': Mem, peers: seq<Peer>, n: nat, id: string)
    requires n <= |peers|
  {
    Unversioned(PeerAt(mem', id)) == Unversioned(Imported(PeerAt(mem, id), peers, id, n))
  }

  /** So is every peer, and nothing else has changed. */
  ghost predicate ImportedAll(mem: Mem, mem': Mem, peers: seq<Peer>, n: nat)
    requires n <= |peers|
  {
    && (forall id :: ImportedAt(mem, mem', peers, n, id))
    && (forall k: EntityKey | k.kind != PeerKind || k.id !in ImportedIds(peers) :: Get(mem', k) == Get(mem, k))
  }

  /** The maps with one more peer imported, at a revision. */
  function WithImport(mem: Mem, p: Peer, rev: uint64): Mem {
    Put(mem, PeerKey(p.id), Some(PeerEntity(KeepSecret(p, PeerAt(mem, p.id)).(resourceVersion := rev))))
  }

  /** Every other peer is as it was or gone. */
  ghost predicate OnlyRemoved(mem: Mem, mem': Mem, keep: set<string>) {
    forall id | id !in keep :: PeerAt(mem', id) == PeerAt(mem, id) || PeerAt(mem', id) == None
  }

  /** Removing other peers leaves the imported ones as they are. */
  lemma ImportedKept(mem: Mem, mid: Mem, mem': Mem, peers: seq<Peer>, n: nat)
    requires n <= |peers| && ImportedAll(mem, mid, peers, n)
    requires forall k: EntityKey | k.kind != PeerKind || k.id in ImportedIds(peers) :: Get(mem', k) == Get(mid, k)
    ensures ImportedThose(mem, mem', peers, n)
  {
    forall id | id in ImportedIds(peers) ensures ImportedAt(mem, mem', peers, n, id) {
      assert ImportedAt(mem, mid, peers, n, id);
    }
  }

  ghost predicate ImportedThose(mem: Mem, mem': Mem, peers: seq<Peer>, n: nat)
    requires n <= |peers|
  {
    forall id | id in ImportedIds(peers) :: ImportedAt(mem, mem', peers, n, id)
  }

  lemma ImportOne(mem: Mem, mid: Mem, peers: seq<Peer>, n: nat, rev: uint64)
    requires n < |peers| && ImportedAll(mem, mid, peers, n)
    ensures ImportedAll(mem, WithImport(mid, peers[n], rev), peers, n + 1)
  {
    var mem', next := WithImport(mid, peers[n], rev), n + 1;
    assert peers[n] in peers;
    forall id ensures ImportedAt(mem, mem', peers, next, id) {
      assert ImportedAt(mem, mid, peers, n, id);
      assert id != peers[n].id ==> Get(mem', PeerKey(id)) == Get(mid, PeerKey(id));
    }
  }

  lemma EventPeer(s: State, m: Mutation, now: Time)
    requires Matched(m) && Acceptable(m) && m.key.kind == PeerKind && (m.delete <==> m.value.None?)
    ensures OnPeer(m)
    ensures EventFor(s, m, now).after ==
            if m.delete then None else Some(PeerEntity(PeerOf(m).value.(resourceVersion := AddU64(s.revision, 1))))
  {
  }

  lemma ImportWrites(s: State, p: Peer, now: Time)
    requires p.id != "" && s.revision < MAX_U64
    ensures var m := ImportPeer(s.mem, p);
            && Matched(m) && Acceptable(m)
            && Put(s.mem, m.key, EventFor(s, m, now).after) == WithImport(s.mem, p, s.revision + 1)
  {
  }

  /** An operation alone is its write. */
  lemma PerformedAlone(w: World, op: PeerOp, sound: Peer -> bool, now: Time, live: bool, commits: bool)
    requires Open(w)
    ensures var plan, act := PlanOf(w.s.mem, op, sound), Operate(op, sound, now, live, commits);
            && Performed(w, act) == (if plan.Write? then Next(w, ApplyStep(plan.m, now, live, commits)) else w)
            && (Commits(w, act) <==> plan.Write? && live && commits && Acceptable(plan.m))
  {
  }

  class CollectorService {
    const store: Store

    constructor (store: Store)
      ensures this.store == store
    {
      this.store := store;
    }

    /** The reads of an operation: what it would write, unless the store changes. */
    method Decide(op: PeerOp, sound: Peer -> bool) returns (plan: Plan)
      requires store.Valid()
      ensures plan == PlanOf(store.mem, op, sound)
      ensures plan.Write? ==> Matched(plan.m) && plan.m.key == PeerKey(OpId(op))
    {
      plan := PlanOf(store.mem, op, sound);
      if plan.Write? {
        PlanMatches(store.View(), op, sound);
        PlanKey(store.View(), op, sound);
      }
    }

    /** Carries out a planned write, whatever was committed since it was decided; `managed` says the
        session manager takes the peer over. */
    method WritePlan(plan: Plan, now: Time, live: bool, commits: bool, managed: bool) returns (r: Reply)
      requires store.Valid() && !store.stuck
      requires plan.Write? ==>
                 Matched(plan.m) && plan.m.key.kind == PeerKind && (plan.m.delete <==> plan.m.value.None?)
      modifies store
      ensures Discreet(r) && (old(store.revision) < MAX_U64 ==> store.Valid())
      ensures plan.Refuse? ==> r == Rejected(plan.why) && store.View() == old(store.View())
      ensures plan.Write? ==> !r.Rejected? && (r.Done? <==> live && commits && Acceptable(plan.m) && managed)
      ensures plan.Write? && old(store.revision) < MAX_U64 ==>
                store.View() == Next(old(store.View()), ApplyStep(plan.m, now, live, commits))
      ensures r.Done? && old(store.revision) < MAX_U64 ==> r.peer == Shown(store.mem, plan.m.key.id)
      ensures r.Done? && r.peer.Some? ==> r.peer.value.resourceVersion == store.revision
    {
      if plan.Refuse? { return Rejected(plan.why); }
      if Acceptable(plan.m) { EventPeer(store.View().s, plan.m, now); }
      var out := store.Apply(plan.m, now, live, commits);
      if out.Refused? || !managed { return Failed; }
      // The write stamps the peer it is given, so that the reply carries the new version.
      r := Done(if out.event.after.Some? then Some(Redacted(out.event.after.value.peer)) else None);
    }

    /** CreatePeer, UpdatePeer and SetPeerAdminState with nothing committing in between; an error of the
        session manager comes after the write. */
    method Perform(op: PeerOp, sound: Peer -> bool, now: Time, live: bool, commits: bool, managed: bool)
      returns (r: Reply)
      requires store.Valid() && !store.stuck && store.revision < MAX_U64
      requires op.Create? || op.Update? || op.SetAdmin?
      modifies store
      ensures store.Valid() && Discreet(r)
      ensures store.View() == Performed(old(store.View()), Operate(op, sound, now, live, commits))
      ensures r.Done? ==> Commits(old(store.View()), Operate(op, sound, now, live, commits))
      ensures r.Done? ==> r.peer.Some? && r.peer == Shown(store.mem, OpId(op))
                          && r.peer.value.resourceVersion == store.revision
      ensures r.Rejected? <==> PlanOf(old(store.mem), op, sound).Refuse?
    {
      PerformedAlone(store.View(), op, sound, now, live, commits);
      var plan := Decide(op, sound);
      r := WritePlan(plan, now, live, commits, managed);
    }

    /** DeletePeer: the session manager comes first, and its error leaves the store alone. */
    method DeletePeer(id: string, expected: uint64, now: Time, live: bool, commits: bool, managed: bool)
      returns (r: Reply)
      requires store.Valid() && !store.stuck && store.revision < MAX_U64
      modifies store
      ensures store.Valid() && Discreet(r)
      ensures managed ==>
                store.View() ==
                Performed(old(store.View()), Operate(Delete(id, expected), _ => true, now, live, commits))
      ensures !managed ==> store.View() == old(store.View()) && !r.Done?
      ensures r.Done? ==> PeerAt(store.mem, id).None?
    {
      PerformedAlone(store.View(), Delete(id, expected), _ => true, now, live, commits);
      var plan := Decide(Delete(id, expected), _ => true);
      if plan.Write? && !managed { return Failed; }
      r := WritePlan(plan, now, live, commits, true);
    }

    /** ImportPeerConfig validates every peer before it writes any; with `replace`, peers of the
        snapshot that are not imported are removed. `oks` and `managed` say which writes and which
        calls of the session manager succeed; the first that fails ends the import, after the first
        `written` peers. */
    method ImportPeerConfig(peers: seq<Peer>, replace: bool, sound: Peer -> bool, now: Time, oks: nat -> bool,
                            managed: nat -> bool)
      returns (r: Reply, ghost written: nat)
      requires store.Valid() && !store.stuck && store.revision + |peers| + |store.mem| < MAX_U64
      modifies store
      ensures store.Valid() && written <= |peers| && (r.Done? ==> written == |peers|)
      ensures r.Rejected? <==> exists i :: 0 <= i < |peers| && !ValidPeer(peers[i], old(store.mem), sound)
      ensures r.Rejected? ==> store.View() == old(store.View())
      ensures forall k: EntityKey | k.kind != PeerKind :: Get(store.mem, k) == Get(old(store.mem), k)
      ensures ImportedThose(old(store.mem), store.mem, peers, written)
      ensures r.Done? && replace ==> forall id :: PeerKey(id) in store.mem <==> id in ImportedIds(peers)
      ensures !replace ==> forall id | id !in ImportedIds(peers) :: PeerAt(store.mem, id) == PeerAt(old(store.mem), id)
      ensures OnlyRemoved(old(store.mem), store.mem, ImportedIds(peers))
    {
      written := 0;
      var snap := store.mem;
      forall id | PeerKey(id) in snap ensures PeerAt(snap, id).Some? && id != "" {
        StampIsLastTouch(store.log, PeerKey(id));
      }
      for i := 0 to |peers|
        invariant forall j | 0 <= j < i :: ValidPeer(peers[j], snap, sound)
        invariant store.View() == old(store.View())
      {
        if !ValidPeer(peers[i], snap, sound) { return Rejected(Invalid), 0; }
      }
      var ok;
      ok, written := PutAll(peers, now, oks, managed);
      ghost var mid := store.mem;
      ImportedKept(snap, mid, mid, peers, written);
      if !ok { return Failed, written; }
      AllPresent(snap, mid, peers);
      if replace {
        ok := RemoveOthers(snap, ImportedIds(peers), now, oks, managed);
        ImportedKept(snap, mid, store.mem, peers, written);
        if !ok { return Failed, written; }
      }
      r := Done(None);
    }

    /** Writes one imported peer; an empty secret keeps the stored one. */
    method PutOne(p: Peer, now: Time, commits: bool) returns (ok: bool)
      requires store.Valid() && !store.stuck && store.revision < MAX_U64 && p.id != ""
      modifies store
      ensures store.Valid() && !store.stuck && store.revision <= old(store.revision) + 1
      ensures store.mem == if ok then WithImport(old(store.mem), p, store.revision) else old(store.mem)
    {
      ImportWrites(store.View().s, p, now);
      var out := store.Apply(ImportPeer(store.mem, p), now, true, commits);
      ok := out.Committed?;
    }

    /** Writes the next imported peer. */
    method PutNext(peers: seq<Peer>, n: nat, now: Time, commits: bool, ghost before: Mem) returns (ok: bool)
      requires store.Valid() && !store.stuck && store.revision < MAX_U64
      requires n < |peers| && peers[n].id != "" && ImportedAll(before, store.mem, peers, n)
      modifies store
      ensures store.Valid() && !store.stuck && store.revision <= old(store.revision) + 1
      ensures ImportedAll(before, store.mem, peers, if ok then n + 1 else n)
    {
      ghost var mid := store.mem;
      ok := PutOne(peers[n], now, commits);
      if ok { ImportOne(before, mid, peers, n, store.revision); }
    }

    /** Writes the imported peers in order; the session manager takes each over once it is written. */
    method PutAll(peers: seq<Peer>, now: Time, oks: nat -> bool, managed: nat -> bool) returns (ok: bool, n: nat)
      requires store.Valid() && !store.stuck && store.revision + |peers| < MAX_U64
      requires forall i | 0 <= i < |peers| :: peers[i].id != ""
      modifies store
      ensures store.Valid() && !store.stuck && store.revision <= old(store.revision) + |peers|
      ensures n <= |peers| && (ok ==> n == |peers|)
      ensures ImportedAll(old(store.mem), store.mem, peers, n)
    {
      n := 0;
      ghost var before := store.mem;
      while n < |peers|
        invariant n <= |peers| && store.Valid() && !store.stuck && store.revision <= old(store.revision) + n
        invariant ImportedAll(before, store.mem, peers, n)
      {
        var put := PutNext(peers, n, now, oks(n), before);
        if !put { return false, n; }
        n := n + 1;
        if !managed(n - 1) { return false, n; }
      }
      ok := true;
    }

    /** Removes the peers of a snapshot that were not imported; the session manager lets go of each
        before it is deleted. */
    method RemoveOthers(snap: Mem, keep: set<string>, now: Time, oks: nat -> bool, managed: nat -> bool)
      returns (ok: bool)
      requires store.Valid() && !store.stuck && store.revision + |snap| < MAX_U64
      requires forall id | PeerKey(id) in store.mem :: id in keep || PeerKey(id) in snap
      requires forall id | PeerKey(id) in snap :: PeerAt(snap, id).Some? && id != ""
      modifies store
      ensures store.Valid()
      ensures forall k: EntityKey | k.kind != PeerKind || k.id in keep :: Get(store.mem, k) == Get(old(store.mem), k)
      ensures ok ==> forall id | PeerKey(id) in store.mem :: id in keep
      ensures OnlyRemoved(old(store.mem), store.mem, keep)
    {
      var left := snap.Keys;
      var n := 0;
      while left != {}
        invariant left <= snap.Keys && store.Valid() && !store.stuck && store.revision + |left| < MAX_U64
        invariant forall k: EntityKey | k.kind != PeerKind || k.id in keep ::
                    Get(store.mem, k) == Get(old(store.mem), k)
        invariant forall id | PeerKey(id) in store.mem :: id in keep || PeerKey(id) in left
        invariant OnlyRemoved(old(store.mem), store.mem, keep)
        decreases left
      {
        var k :| k in left;
        left := left - {k};
        if k.kind == PeerKind && k.id !in keep && PeerAt(snap, k.id).Some? {
          if !managed(n) { return false; }
          var m := RemovePeer(k.id, PeerAt(snap, k.id).value.domainId, "peer removed by configuration import");
          var out := store.Apply(m, now, true, oks(n));
          n := n + 1;
          if out.Refused? { return false; }
        }
      }
      ok := true;
    }
  }

  function ImportedIds(peers: seq<Peer>): set<string> {
    set p | p in peers :: p.id
  }

  /** Once all are written, every imported peer is stored. */
  lemma AllPresent(mem: Mem, mem': Mem, peers: seq<Peer>)
    requires ImportedAll(mem, mem', peers, |peers|)
    ensures forall id | id in ImportedIds(peers) :: PeerAt(mem', id).Some?
  {
    forall id | id in ImportedIds(peers) ensures PeerAt(mem', id).Some? {
      assert ImportedAt(mem, mem', peers, |peers|, id);
      var p :| p in peers && p.id == id;
      var j :| 0 <= j < |peers| && peers[j] == p;
      ImportedPresent(PeerAt(mem, id), peers, id, |peers|, j);
    }
  }

  lemma {:induction false} ImportedPresent(existing: Option<Peer>, peers: seq<Peer>, id: string, n: nat, j: nat)
    requires j < n <= |peers| && peers[j].id == id
    ensures Imported(existing, peers, id, n).Some?
  {
    if j < n - 1 { ImportedPresent(existing, peers, id, n - 1, j); }
  }
}
