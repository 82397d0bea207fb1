/** What the steps of the store do, stated on the records and channels alone
    (internal/store/store.go:185-284, 554-579). */
module StoreLaws {
  import opened Entities
  import opened Journal
  import opened StoreModel

  // ---------------------------------------------------------------- what a commit stores

  /** ensureMeta, field by field. */
  ghost predicate MetaStamped(m: Meta, m': Meta, rev: int, now: Time) {
    && m'.id == m.id && m'.domainId == m.domainId && m'.sourcePeerIds == m.sourcePeerIds
    && m'.conflicts == m.conflicts && m'.tlvs == m.tlvs
    && m'.revision == rev && m'.lastSeen == Some(now)
    && (m.firstSeen.None? ==> m'.firstSeen == Some(now)) && (m.firstSeen.Some? ==> m'.firstSeen == m.firstSeen)
    && (m.freshness.FreshnessUnspecified? ==> m'.freshness == Active)
    && (!m.freshness.FreshnessUnspecified? ==> m'.freshness == m.freshness)
  }

  /** v' is v with its stamp and nothing else changed. */
  ghost predicate Restamped(v: Entity, v': Entity, rev: int, now: Time) {
    match (v, v')
    case (NodeEntity(n), NodeEntity(n')) => n'.(meta := n.meta) == n && MetaStamped(n.meta, n'.meta, rev, now)
    case (LinkEntity(l), LinkEntity(l')) => l'.(meta := l.meta) == l && MetaStamped(l.meta, l'.meta, rev, now)
    case (PrefixEntity(p), PrefixEntity(p')) => p'.(meta := p.meta) == p && MetaStamped(p.meta, p'.meta, rev, now)
    case (PeerEntity(p), PeerEntity(p')) =>
      p'.(resourceVersion := p.resourceVersion) == p && p'.resourceVersion == rev
    case (DomainEntity(d), DomainEntity(d')) => d'.(revision := d.revision) == d && d'.revision == rev
    case _ => false
  }

  lemma StampedRestamps(v: Entity, rev: uint64, now: Time)
    ensures Restamped(v, Stamped(v, rev, now), rev, now)
  {
  }

  /** The event of a committed mutation carries the mutation's own key, domain, peer and reason, the next
      revision, what the key held and what it holds now. */
  ghost predicate Tells(e: Event, w: World, w': World, m: Mutation, now: Time) {
    && e.revision == w.s.revision + 1 && e.observed == now
    && e.key == m.key && e.domainId == m.domainId && e.sourcePeer == m.peerId && e.reason == m.reason
    && e.before == Get(w.s.mem, m.key) && e.after == Get(w'.s.mem, m.key)
  }

  /** A commit stores the stamped value, or nothing for a deletion, under the mutation's key; every other
      key stays; its event comes last in the log. */
  lemma CommitStores(w: World, m: Mutation, now: Time)
    requires Inv(w) && Acceptable(m) && w.s.revision < MAX_U64
    ensures var w' := Applied(w, m, now);
            && w'.log == w.log + [w'.log[|w.log|]] && Tells(w'.log[|w.log|], w, w', m, now)
            && w'.s.revision == w.s.revision + 1 && w'.s.observed == Some(now) && w'.first == w.first
            && (forall k | k != m.key :: Get(w'.s.mem, k) == Get(w.s.mem, k))
            && (m.delete ==> Get(w'.s.mem, m.key) == None)
            && (!m.delete ==> Get(w'.s.mem, m.key).Some?
                              && Restamped(m.value.value, Get(w'.s.mem, m.key).value, w.s.revision + 1, now))
  {
    if !m.delete { StampedRestamps(m.value.value, w.s.revision + 1, now); }
  }

  // ---------------------------------------------------------------- what a commit delivers

  /** A channel after a commit: a registered one with fewer than 256 events buffered has the event last; a
      registered one with 256 is removed and closed with what it holds; any other is left alone. */
  ghost predicate Delivered(c: Chan, c': Chan, e: Event, registered: bool, registered': bool) {
    && c'.start == c.start && c'.received == c.received
    && (registered && |c.buffer| < 256 ==> registered' && !c'.closed && c'.buffer == c.buffer + [e])
    && (registered && |c.buffer| >= 256 ==> !registered' && c'.closed && c'.buffer == c.buffer)
    && (!registered ==> !registered' && c' == c)
  }

  lemma CommitDelivers(w: World, m: Mutation, now: Time, id: nat)
    requires Inv(w) && Acceptable(m) && w.s.revision < MAX_U64 && id in w.s.chans
    ensures var w' := Applied(w, m, now);
            && w'.s.chans.Keys == w.s.chans.Keys
            && Delivered(w.s.chans[id], w'.s.chans[id], w'.log[|w.log|], id in w.s.subs, id in w'.s.subs)
  {
    assert InStep(w.s.chans[id], w.log, id in w.s.subs);
  }

  // ---------------------------------------------------------------- subscriptions

  /** Every channel but one is as it was. */
  ghost predicate OthersStay(w: World, w': World, id: nat) {
    && (forall k | k in w.s.chans && k != id :: k in w'.s.chans && w'.s.chans[k] == w.s.chans[k])
    && (forall k | k != id :: k in w'.s.subs <==> k in w.s.subs)
    && w'.s.db == w.s.db && w'.s.mem == w.s.mem && w'.s.revision == w.s.revision && w'.log == w.log
  }

  /** Subscribing within the limit opens one new channel that buffers every retained event after `after`;
      beyond it no channel opens. */
  lemma SubscribeOpens(w: World, after: uint64)
    requires Inv(w) && !w.s.stuck
    ensures var w', id, n := Subscribed(w, after), w.s.nextSub, |w.log| - StreamStart(w, after);
            && OthersStay(w, w', id) && id !in w.s.chans
            && (n <= 256 ==>
                  && !w'.s.stuck && id in w'.s.chans && id in w'.s.subs && w'.s.nextSub == id + 1
                  && w'.s.chans[id].received == [] && !w'.s.chans[id].closed
                  && w'.s.chans[id].buffer == w.log[StreamStart(w, after)..])
            && (n > 256 ==> w'.s.stuck && w'.s.chans == w.s.chans && w'.s.subs == w.s.subs)
  {
    BacklogIsSuffix(w, after);
  }

  /** A reader takes the oldest buffered event, and a channel with none gives none. */
  lemma ReceiveTakes(w: World, id: nat)
    requires Inv(w) && id in w.s.chans
    ensures var c, w' := w.s.chans[id], Received(w, id);
            && OthersStay(w, w', id) && id in w'.s.chans
            && var c' := w'.s.chans[id];
               && (c.buffer == [] ==> c' == c)
               && (c.buffer != [] ==> c.buffer == [c.buffer[0]] + c'.buffer
                                      && c'.received == c.received + [c.buffer[0]] && c'.closed == c.closed)
  {
  }

  /** The end of a registered subscriber's context closes its channel, which keeps what it holds; it does
      nothing to one that is no longer registered. */
  lemma CancelCloses(w: World, id: nat)
    requires Inv(w) && id in w.s.chans
    ensures var c, w' := w.s.chans[id], Cancelled(w, id);
            && OthersStay(w, w', id) && id in w'.s.chans && id !in w'.s.subs
            && w'.s.chans[id].closed
            && w'.s.chans[id].buffer == c.buffer && w'.s.chans[id].received == c.received
  {
    assert InStep(w.s.chans[id], w.log, id in w.s.subs);
  }

  /** A restart keeps the database and its history and leaves no subscription. */
  lemma RestartForgets(w: World)
    requires Inv(w)
    ensures var w' := Reopened(w);
            && w'.s.db == w.s.db && w'.log == w.log && w'.first == w.first
            && w'.s.chans == map[] && w'.s.subs == {} && !w'.s.stuck
  {
    ReopenGivesMemory(w);
  }

  // ---------------------------------------------------------------- which mutations are taken

  /** Which steps change the store at all: a mutation only when its context is live, it has an id, a known
      kind and, unless it deletes, a value, and its batch commits; and while a subscriber holds the lock
      nothing that needs it. */
  lemma TakenExactly(w: World, m: Mutation, now: Time, live: bool, commits: bool)
    requires Inv(w) && w.s.revision < MAX_U64
    ensures Next(w, ApplyStep(m, now, live, commits)).log != w.log <==>
            && !w.s.stuck && live && commits && m.key.id != "" && !m.key.kind.UnknownKind?
            && (m.delete || m.value.Some?)
  {
  }
}
