/** What each peer operation refuses and stores, stated on the peers alone
    (internal/api/collector.go:43-86, 120-206, 249-253). */
module PeerLaws {
  import opened Entities
  import opened Journal
  import opened StoreModel
  import opened Peering

  /** A peer that passes validation: ids, an existing domain, and the given tests. */
  ghost predicate Sound(p: Peer, mem: Mem, sound: Peer -> bool) {
    p.id != "" && p.domainId != "" && EntityKey(DomainKind, p.domainId) in mem && sound(p)
  }

  ghost predicate Stored(mem: Mem, id: string, e: Peer) {
    EntityKey(PeerKind, id) in mem && mem[EntityKey(PeerKind, id)] == PeerEntity(e)
  }

  /** An invalid peer is refused, a known one exists, any other is created. */
  lemma CreateExactly(mem: Mem, p: Peer, sound: Peer -> bool)
    ensures var plan := PlanOf(mem, Create(p), sound);
            && (plan == Refuse(Invalid) <==> !Sound(p, mem, sound))
            && (plan == Refuse(Exists) <==> Sound(p, mem, sound) && exists e :: Stored(mem, p.id, e))
            && (plan.Write? <==> Sound(p, mem, sound) && !exists e :: Stored(mem, p.id, e))
  {
    if PeerAt(mem, p.id).Some? { assert Stored(mem, p.id, PeerAt(mem, p.id).value); }
    if e :| Stored(mem, p.id, e) { assert PeerAt(mem, p.id) == Some(e); }
  }

  /** A new peer is stored as given, idle or disabled. */
  lemma CreateStores(r: World, w: World, q: Request)
    requires Inv(r) && Open(w) && q.op.Create? && Passes(r, q)
    ensures exists s :: Stored(Landed(r, w, q).s.mem, q.op.p.id, s) && Created(q.op.p, s, w.s.revision + 1)
  {
    LandedMutation(r, w, q);
    var s := PeerAt(Landed(r, w, q).s.mem, q.op.p.id).value;
    assert Stored(Landed(r, w, q).s.mem, q.op.p.id, s) && Created(q.op.p, s, w.s.revision + 1);
  }

  ghost predicate Created(p: Peer, s: Peer, rev: int) {
    && s.(session := p.session, resourceVersion := p.resourceVersion) == p && s.resourceVersion == rev
    && (p.enabled ==> s.session == SessionIdle) && (!p.enabled ==> s.session == SessionDisabled)
  }

  /** An update needs a valid peer that is stored at the expected version. */
  lemma UpdateExactly(mem: Mem, p: Peer, expected: uint64, sound: Peer -> bool)
    ensures var plan := PlanOf(mem, Update(p, expected), sound);
            && (plan == Refuse(Invalid) <==> !Sound(p, mem, sound))
            && (plan == Refuse(Missing) <==> Sound(p, mem, sound) && !exists e :: Stored(mem, p.id, e))
            && (plan == Refuse(Aborted) <==>
                  Sound(p, mem, sound) && exists e :: Stored(mem, p.id, e) && e.resourceVersion != expected)
            && (plan.Write? <==>
                  Sound(p, mem, sound) && exists e :: Stored(mem, p.id, e) && e.resourceVersion == expected)
  {
    if PeerAt(mem, p.id).Some? { assert Stored(mem, p.id, PeerAt(mem, p.id).value); }
    if e :| Stored(mem, p.id, e) { assert PeerAt(mem, p.id) == Some(e); }
  }

  /** An updated peer is stored as given, except that it keeps the session state and the counters it had,
      and its secret when none is given. */
  lemma UpdateStores(r: World, w: World, q: Request)
    requires Inv(r) && Open(w) && q.op.Update? && Passes(r, q)
    ensures exists e, s :: Stored(r.s.mem, q.op.p.id, e) && Stored(Landed(r, w, q).s.mem, q.op.p.id, s)
                           && Updated(q.op.p, e, s, w.s.revision + 1)
  {
    LandedMutation(r, w, q);
    var e := PeerAt(r.s.mem, q.op.p.id).value;
    var s := PeerAt(Landed(r, w, q).s.mem, q.op.p.id).value;
    assert Stored(r.s.mem, q.op.p.id, e) && Stored(Landed(r, w, q).s.mem, q.op.p.id, s);
    assert Updated(q.op.p, e, s, w.s.revision + 1);
  }

  ghost predicate Updated(p: Peer, e: Peer, s: Peer, rev: int) {
    && s.(session := p.session, receivedUpdates := p.receivedUpdates, rejectedUpdates := p.rejectedUpdates,
          secret := p.secret, resourceVersion := p.resourceVersion) == p
    && s.session == e.session && s.receivedUpdates == e.receivedUpdates && s.rejectedUpdates == e.rejectedUpdates
    && (p.secret == "" ==> s.secret == e.secret) && (p.secret != "" ==> s.secret == p.secret)
    && s.resourceVersion == rev
  }

  /** A deletion and a change of the administrative state need a peer stored at the expected version. */
  lemma GuardedExactly(mem: Mem, id: string, expected: uint64, enabled: bool, sound: Peer -> bool)
    ensures forall op | op == Delete(id, expected) || op == SetAdmin(id, expected, enabled) ::
              var plan := PlanOf(mem, op, sound);
              && (plan == Refuse(Missing) <==> !exists e :: Stored(mem, id, e))
              && (plan == Refuse(Aborted) <==> exists e :: Stored(mem, id, e) && e.resourceVersion != expected)
              && (plan.Write? <==> exists e :: Stored(mem, id, e) && e.resourceVersion == expected)
  {
    if PeerAt(mem, id).Some? { assert Stored(mem, id, PeerAt(mem, id).value); }
    if e :| Stored(mem, id, e) { assert PeerAt(mem, id) == Some(e); }
  }

  /** A changed peer differs in its administrative state alone, and in its session when it is disabled. */
  lemma SetAdminStores(r: World, w: World, q: Request)
    requires Inv(r) && Open(w) && q.op.SetAdmin? && Passes(r, q)
    ensures exists e, s :: Stored(r.s.mem, q.op.id, e) && Stored(Landed(r, w, q).s.mem, q.op.id, s)
                           && Switched(e, s, q.op.enabled, w.s.revision + 1)
  {
    LandedMutation(r, w, q);
    var e := PeerAt(r.s.mem, q.op.id).value;
    var s := PeerAt(Landed(r, w, q).s.mem, q.op.id).value;
    assert Stored(r.s.mem, q.op.id, e) && Stored(Landed(r, w, q).s.mem, q.op.id, s);
    assert Switched(e, s, q.op.enabled, w.s.revision + 1);
  }

  ghost predicate Switched(e: Peer, s: Peer, enabled: bool, rev: int) {
    && s.(enabled := e.enabled, session := e.session, resourceVersion := e.resourceVersion) == e
    && s.enabled == enabled && s.resourceVersion == rev
    && (enabled ==> s.session == e.session) && (!enabled ==> s.session == SessionDisabled)
  }

  /** A deleted peer is gone. */
  lemma DeleteRemoves(r: World, w: World, q: Request)
    requires Inv(r) && Open(w) && q.op.Delete? && Passes(r, q)
    ensures EntityKey(PeerKind, q.op.id) !in Landed(r, w, q).s.mem
  {
    LandedCommits(r, w, q);
  }

  /** What lands is what was planned, at the next revision. */
  lemma LandedMutation(r: World, w: World, q: Request)
    requires Inv(r) && Open(w) && Passes(r, q) && !q.op.ImportPut? && !q.op.ImportRemove? && !q.op.Delete?
    ensures var m := PlanOf(r.s.mem, q.op, q.sound).m;
            && PeerOf(m).Some?
            && PeerAt(Landed(r, w, q).s.mem, OpId(q.op)) == Some(PeerOf(m).value.(resourceVersion := w.s.revision + 1))
  {
    LandedCommits(r, w, q);
    PlanOnPeer(r.s.mem, q.op, q.sound);
    WrittenPeer(w.s.mem, w.s, PlanOf(r.s.mem, q.op, q.sound).m, q.now, OpId(q.op));
  }

  /** The event of an operation names its peer's domain and what was done. */
  ghost predicate Reports(m: Mutation, domainId: string, reason: string) {
    m.domainId == domainId && m.peerId == "" && m.reason == reason
  }

  lemma PlanReports(mem: Mem, op: PeerOp, sound: Peer -> bool)
    requires PlanOf(mem, op, sound).Write?
    ensures var m := PlanOf(mem, op, sound).m;
            && (op.Create? ==> Reports(m, op.p.domainId, "peer created"))
            && (op.Update? ==> Reports(m, op.p.domainId, "peer updated"))
            && (op.Delete? ==> Reports(m, PeerAt(mem, op.id).value.domainId, "peer deleted"))
            && (op.SetAdmin? ==>
                  Reports(m, PeerAt(mem, op.id).value.domainId, "peer administrative state changed"))
            && (op.ImportPut? ==> Reports(m, op.p.domainId, "peer configuration imported"))
            && (op.ImportRemove? ==> Reports(m, op.domainId, "peer removed by configuration import"))
  {
  }

  /** An imported peer keeps the stored secret exactly when it brings none. */
  lemma ImportKeepsSecret(p: Peer, existing: Option<Peer>)
    ensures var s := KeepSecret(p, existing);
            && s.(secret := p.secret) == p
            && (p.secret != "" || existing.None? ==> s.secret == p.secret)
            && (p.secret == "" && existing.Some? ==> s.secret == existing.value.secret)
  {
  }

  /** A reply shows the stored peer with nothing but the secret taken out. */
  lemma ShownExactly(mem: Mem, id: string)
    ensures Shown(mem, id).Some? <==> PeerAt(mem, id).Some?
    ensures Shown(mem, id).Some? ==>
              Shown(mem, id).value.secret == ""
              && Shown(mem, id).value.(secret := PeerAt(mem, id).value.secret) == PeerAt(mem, id).value
  {
  }
}
