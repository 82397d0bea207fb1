/** Where the promises end: concrete inputs on which a natural reading of the code fails. */
module Limits {
  import opened Entities
  import opened Orders
  import opened Keys
  import opened Journal
  import opened Database
  import opened Retention
  import opened StoreModel
  import opened History
  import opened Graphs
  import opened Shortest
  import opened Routes
  import opened Merge
  import opened Paging
  import opened Changes
  import opened Peering

  // ---------------------------------------------------------------- waypoint totals

  const NO_META := Meta("", "", 0, None, None, Active, [], [], [])
  const HALF: uint64 := 0x8000_0000_0000_0000

  function Site(id: string): Node {
    Node(NO_META.(id := id), "", "", "", "", "", "", "")
  }

  function Span(id: string, u: string, v: string): Link {
    Link(NO_META.(id := id), u, v, "", "", "", "", "", "", HALF, 0, 0, 0, 0.0, [], "")
  }

  const AB := Span("ab", "a", "b")
  const BC := Span("bc", "b", "c")

  const LINE := Graph(0, map["a" := Site("a"), "b" := Site("b"), "c" := Site("c")], map["ab" := AB, "bc" := BC],
                      map["a" := [AB], "b" := [BC]])

  /** From a to c by way of b, over two links of weight 2^63. */
  const VIA_B := Query(LINE, Igp, Some(Constraints(0, 0.0, [], [], [], [], ["b"])))

  lemma LineLinks(l: Link)
    ensures VIA_B.Usable(l) <==> l == AB || l == BC
  {
    if HasLink(LINE, l) { assert l.localNodeId == "a" || l.localNodeId == "b"; }
    assert HasLink(LINE, AB) && HasLink(LINE, BC);
  }

  lemma OneHop(l: Link)
    requires l == AB || l == BC
    ensures IsCanonical(VIA_B, [l], l.localNodeId, l.remoteNodeId) && Cost(VIA_B, [l]) == HALF
  {
    LineLinks(l);
    assert Front([l]) == [] && Last([l]) == l;
    forall p | IsChain(VIA_B, p, l.localNodeId, l.remoteNodeId) ensures p != [] && Last(p) == l {
      LineLinks(if p == [] then l else Last(p));
    }
    StrIrreflexive(l.Id());
  }

  lemma TwoLegs(q: Query, ways: seq<string>, l: Link, l': Link)
    requires |ways| == 3 && IsCanonical(q, [l], ways[0], ways[1]) && IsCanonical(q, [l'], ways[1], ways[2])
    ensures IsTour(q, [l, l'], ways) && Cost(q, [l, l']) == Cost(q, [l]) + Cost(q, [l'])
  {
    assert [] + [l] == [l] && [l] + [l'] == [l, l'] && ways[..3] == ways;
    TourExtend(q, [], [l], ways, 0);
    TourExtend(q, [l], [l'], ways, 1);
  }

  /** Two legs of weight 2^63 make a route of total zero. */
  lemma HalvesWrap(q: Query, ways: seq<string>, l: Link, l': Link) returns (r: Route)
    requires |ways| == 3 && ways[0] in q.g.nodes && Waypoints(q, ways[0], ways[2]) == ways
    requires IsCanonical(q, [l], ways[0], ways[1]) && IsCanonical(q, [l'], ways[1], ways[2])
    requires Cost(q, [l]) == HALF && Cost(q, [l']) == HALF
    ensures IsRoute(q, ways[0], ways[2], r) && Cost(q, LinksOf(r)) == MAX_U64 + 1 && r.total == 0
  {
    TwoLegs(q, ways, l, l');
    assert MAX_U64 + 1 == 0 + Turns(1);
    r := Route(0, TotalDelay([l, l']), Bottleneck([l, l']), HopList(q.g, ways[0], [l, l']));
    TakenHopList(q.g, ways[0], [l, l']);
  }

  lemma LineWellFormed()
    ensures WellFormed(LINE) && "a" in LINE.nodes
  {
    assert HasLink(LINE, AB) && HasLink(LINE, BC);
  }

  lemma LineWays()
    ensures Waypoints(VIA_B, "a", "c") == ["a", "b", "c"]
    ensures AB.localNodeId == "a" && AB.remoteNodeId == "b" && BC.localNodeId == "b" && BC.remoteNodeId == "c"
  {
  }

  lemma LineDistinct()
    ensures DistinctLinkIds(LINE)
  {
    forall l, k | HasLink(LINE, l) && HasLink(LINE, k) && l.Id() == k.Id() ensures l == k {
      assert (l == AB || l == BC) && (k == AB || k == BC);
    }
  }

  lemma LegsLinked(q: Query, ways: seq<string>, l: Link, k: Link)
    requires |ways| == 3 && ways[0] in q.g.nodes && ways[1] in q.g.nodes && ways[2] in q.g.nodes
    requires WithinRange(q, [l], ways[0], ways[1]) && WithinRange(q, [k], ways[1], ways[2])
    ensures AllLinked(q, ways)
  {
    forall i | 0 <= i < |ways| - 1 ensures Linked(q, ways[i], ways[i + 1]) {
      assert i == 0 || i == 1;
    }
  }

  /** The reported total of a route through waypoints can be wrong: here every leg fits, the exact
      sum is 2^64, and whatever Compute answers is a route of total zero. */
  lemma WaypointTotalWraps(r: Option<Route>)
    requires Answers(VIA_B, "a", "c", r)
    ensures WellFormed(LINE)
    ensures r.Some? && Cost(VIA_B, LinksOf(r.value)) == MAX_U64 + 1 && r.value.total == 0
  {
    LineWellFormed();
    LineDistinct();
    OneHop(AB);
    OneHop(BC);
    LineWays();
    LegsLinked(VIA_B, ["a", "b", "c"], AB, BC);
    var halves := HalvesWrap(VIA_B, ["a", "b", "c"], AB, BC);
    RoutesAgree(VIA_B, "a", "c", r.value, halves);
  }

  // ---------------------------------------------------------------- stores that a run reaches

  /** A mutation that stores a domain under an id. */
  function AddDomain(id: string, domainId: string): Step {
    ApplyStep(Mutation(EntityKey(DomainKind, id), domainId, "", "", false, Some(DomainAt(id, 0))), 0, true, true)
  }

  function DomainAt(id: string, rev: uint64): Entity {
    DomainEntity(Domain(id, "", "", rev))
  }

  /** Its event, when nothing was stored under the id. */
  function Added(id: string, domainId: string, rev: uint64): Event {
    Event(rev, 0, EntityKey(DomainKind, id), domainId, "", None, Some(DomainAt(id, rev)), "")
  }

  /** Where the domains of a store are listed. */
  function DomainIds(mem: Mem): set<string> {
    set k | k in mem && k.kind == DomainKind :: k.id
  }

  lemma IdsMore(mem: Mem, id: string, e: Entity)
    ensures DomainIds(Put(mem, EntityKey(DomainKind, id), Some(e))) == DomainIds(mem) + {id}
  {
    var k, mem' := EntityKey(DomainKind, id), Put(mem, EntityKey(DomainKind, id), Some(e));
    assert k in mem';
    forall x | x in DomainIds(mem) ensures x in DomainIds(mem') {
      assert EntityKey(DomainKind, x) in mem';
    }
    forall x | x in DomainIds(mem') && x != id ensures x in DomainIds(mem) {
      assert EntityKey(DomainKind, x) in mem;
    }
  }

  /** What adding a domain does to the log. */
  ghost predicate Adds(w: World, w': World, id: string, domainId: string)
    requires |w.log| < MAX_U64
  {
    && |w'.log| == |w.log| + 1 && w'.first == w.first && !w'.s.stuck
    && DomainIds(w'.s.mem) == DomainIds(w.s.mem) + {id}
    && (id !in DomainIds(w.s.mem) ==> w'.log == w.log + [Added(id, domainId, |w.log| + 1)])
  }

  lemma AddSteps(w: World, id: string, domainId: string)
    requires Inv(w) && !w.s.stuck && |w.log| < MAX_U64 && id != ""
    ensures Adds(w, Next(w, AddDomain(id, domainId)), id, domainId)
  {
    assert EntityKey(DomainKind, id) in w.s.mem ==> id in DomainIds(w.s.mem);
    IdsMore(w.s.mem, id, DomainAt(id, |w.log| + 1));
  }

  lemma AddSane(id: string, domainId: string)
    ensures Sane(AddDomain(id, domainId))
  {
  }

  lemma AddReaches(w: World, id: string, domainId: string) returns (w': World)
    requires Reachable(w) && !w.s.stuck && |w.log| < MAX_U64 && id != ""
    ensures Reachable(w') && Adds(w, w', id, domainId)
  {
    AddSane(id, domainId);
    StepReaches(w, AddDomain(id, domainId));
    AddSteps(w, id, domainId);
    w' := Next(w, AddDomain(id, domainId));
  }

  lemma EmptyReached() returns (w: World)
    ensures Reachable(w) && !w.s.stuck && w.first == 1 && w.log == [] && DomainIds(w.s.mem) == {}
  {
    EmptyInv();
    w := EMPTY;
    assert ReachedBy(w, []);
  }

  lemma OneAdded(a: string) returns (w: World)
    requires a != ""
    ensures Reachable(w) && !w.s.stuck && w.first == 1 && DomainIds(w.s.mem) == {a}
    ensures w.log == [Added(a, a, 1)]
  {
    w := EmptyReached();
    w := AddReaches(w, a, a);
  }

  lemma SecondOf<T>(s: seq<T>, a: T, b: T)
    requires s == [a]
    ensures s + [b] == [a, b] && |s| == 1
  {
  }

  lemma ThirdOf<T>(s: seq<T>, a: T, b: T, c: T)
    requires s == [a, b]
    ensures s + [c] == [a, b, c] && |s| == 2
  {
  }

  /** Two domains, added one after the other. */
  lemma TwoAdded(a: string, b: string) returns (w: World)
    requires a != "" && b != "" && a != b
    ensures Reachable(w) && !w.s.stuck && w.first == 1 && DomainIds(w.s.mem) == {a, b}
    ensures w.log == [Added(a, a, 1), Added(b, b, 2)]
  {
    var w1 := OneAdded(a);
    assert b !in DomainIds(w1.s.mem);
    w := AddReaches(w1, b, b);
    SecondOf(w1.log, Added(a, a, 1), Added(b, b, 2));
  }

  /** Retention removes everything observed before instant one. */
  const CUT_ALL := CompactStep(Budget(1, 0, 0, 0, (e: Event) => 0), true)

  lemma CutBoth(log: seq<Event>)
    requires |log| == 2 && log[0].observed == 0 && log[1].observed == 0
    ensures AgeCut(log, 1) == 2
  {
    assert log[1..] == [log[1]] && log[1..][1..] == [];
    assert AgeCut(log[1..], 1) == 1;
  }

  /** The same store with its whole journal cut. */
  lemma TwoForgotten() returns (w: World)
    ensures Reachable(w) && w.first == 3 && w.log == [Added("x", "x", 1), Added("y", "y", 2)]
  {
    var w0 := TwoAdded("x", "y");
    StepReaches(w0, CUT_ALL);
    w := Next(w0, CUT_ALL);
    CutSteps(w0);
  }

  lemma CutSteps(w: World)
    requires Inv(w) && w.first == 1 && |w.log| == 2 && w.log[0].observed == 0 && w.log[1].observed == 0
    ensures Next(w, CUT_ALL).first == 3 && Next(w, CUT_ALL).log == w.log
  {
    CutBoth(w.log);
    assert w.log[0..] == w.log;
  }

  lemma SecondUnknown(log: seq<Event>)
    requires log == [Added("x", "x", 1), Added("y", "y", 2)]
    ensures StateAt(log, 1) != StateAt(log, 2)
  {
    assert log[..0] == [];
    StateStep(log, 0);
    StateStep(log, 1);
    assert Get(StateAt(log, 1), EntityKey(DomainKind, "y")) == None;
    assert Get(StateAt(log, 2), EntityKey(DomainKind, "y")).Some?;
  }

  /** After the whole journal is cut, a read of an old revision does not report that it expired: it
      returns the present maps under the old number. */
  lemma EmptyJournalMisreports() returns (w: World)
    ensures Reachable(w) && w.s.revision == 2 && w.first == 3
    ensures ReadAt(Snapshot(2, w.s.observed, w.s.mem), w.log, |w.log|, w.first, 1)
            == SnapshotResult.Found(Snapshot(1, None, w.s.mem))
    ensures w.s.mem != StateAt(w.log, 1)
  {
    w := TwoForgotten();
    ReachableKeeps(w);
    SecondUnknown(w.log);
  }

  /** And a watch from an old revision is not refused: it silently skips what was cut. */
  lemma EmptyJournalSkips() returns (w: World)
    ensures Reachable(w) && w.s.revision == 2 && OldestOf(w) == 0
    ensures !WatchRefused(OldestOf(w), 0) && StreamStart(w, 0) == 2
  {
    w := TwoForgotten();
    ReachableKeeps(w);
    WatchStartsExactly(w, 0);
  }

  /** What a point-in-time read sees when the journal is cut between its first two looks at it. */
  datatype Sight = Sight(views: nat -> Db, logs: nat -> seq<Event>, firsts: nat -> nat)

  function FirstThen<T>(a: T, b: T): nat -> T {
    i => if i == 0 then a else b
  }

  function CutMeanwhile(w: World, w': World): Sight {
    Sight(FirstThen(w.s.db, w'.s.db), FirstThen(w.log, w.log), FirstThen(w.first, w'.first))
  }

  lemma TraceLeft(log: seq<Event>)
    requires Faithful(log) && log == [Added("x", "x", 1), Added("y", "y", 2)]
    ensures !LeftNoTrace(log, 1)
  {
    SecondUnknown(log);
    SameStateExactly(log, 1);
  }

  /** A read of revision 1 that retention overtakes: nothing has expired at the check, everything is gone
      at the first chunk, and so the read answers with the present maps, which are others. */
  ghost predicate MidRead(w: World, s: Sight) {
    && Views(s.views, s.logs, s.firsts, w.log) && Faithful(w.log) && w.s.mem == StateAt(w.log, |w.log|)
    && w.s.revision == |w.log| == 2 && s.firsts(0) == 1 && Spent(s.firsts, 2) && !LeftNoTrace(w.log, 1)
  }

  lemma MidReadHolds(w: World, w': World)
    requires Inv(w) && Inv(w') && w'.log == w.log && w.first == 1 && w'.first == 3
    requires w.log == [Added("x", "x", 1), Added("y", "y", 2)]
    ensures MidRead(w, CutMeanwhile(w, w'))
  {
    TraceLeft(w.log);
  }

  /** Retention that cuts the journal after such a read has checked it. */
  lemma RetentionMidRead() returns (w: World, w': World)
    ensures Reachable(w) && Inv(w) && Reachable(w') && w' == Next(w, CUT_ALL)
    ensures MidRead(w, CutMeanwhile(w, w'))
  {
    w := TwoAdded("x", "y");
    StepReaches(w, CUT_ALL);
    w' := Next(w, CUT_ALL);
    StepKeeps(w, CUT_ALL);
    CutSteps(w);
    MidReadHolds(w, w');
  }

  // ---------------------------------------------------------------- a subscriber that blocks

  lemma {:induction false} ManyAdded(n: nat) returns (w: World)
    requires n <= 1000
    ensures Reachable(w) && !w.s.stuck && w.first == 1 && |w.log| == n
  {
    if n == 0 {
      w := EmptyReached();
    } else {
      w := ManyAdded(n - 1);
      w := AddReaches(w, "x", "");
    }
  }

  /** A subscriber 257 events behind blocks while it holds the lock. */
  lemma SubscriberBlocks() returns (w: World)
    ensures Reachable(w) && !w.s.stuck && w.s.revision == 257
    ensures Inv(w) && Reachable(Next(w, SubscribeStep(0))) && Next(w, SubscribeStep(0)).s.stuck
  {
    w := ManyAdded(257);
    ReachableKeeps(w);
    StepReaches(w, SubscribeStep(0));
    SubscribeBlocks(w, 0);
  }

  // ---------------------------------------------------------------- filtered pages of changes

  /** Three domains, of which the second lies outside the filter. */
  lemma ThreeAdded(a: string, b: string, c: string) returns (w: World)
    requires a != "" && b != "" && c != "" && a != b && b != c && a != c
    ensures Reachable(w) && w.first == 1
    ensures w.log == [Added(a, a, 1), Added(b, b, 2), Added(c, a, 3)]
  {
    var w2 := TwoAdded(a, b);
    assert c !in DomainIds(w2.s.mem);
    w := AddReaches(w2, c, a);
    ThirdOf(w2.log, Added(a, a, 1), Added(b, b, 2), Added(c, a, 3));
  }

  lemma FilterThree<T>(a: T, b: T, c: T, keep: T -> bool)
    requires keep(a) && !keep(b) && keep(c)
    ensures Filter([a, b], keep) == [a] && Filter([a, b, c], keep) == [a, c]
  {
    assert [a, b, c][1..] == [b, c] && [b, c][1..] == [c] && [c][1..] == [] && [a, b][1..] == [b] && [b][1..] == [];
    assert Filter([c], keep) == [c] && Filter([b], keep) == [];
  }

  /** A filter that drops the second of three events ends the listing with the first page. */
  lemma ThreeListed(all: seq<Event>, keep: Event -> bool)
    requires |all| == 3 && keep(all[0]) && !keep(all[1]) && keep(all[2])
    ensures Filter(all, keep) == [all[0], all[2]] && Listed(all, 1, keep) == [all[0]]
    ensures !LosesNothing(all, 1, keep)
  {
    FilterThree(all[0], all[1], all[2], keep);
    assert all[..2] == [all[0], all[1]] && all == [all[0], all[1], all[2]];
    ListedComplete(all, 1, keep);
  }

  lemma AllRetained(log: seq<Event>)
    requires |log| <= MAX_U64
    ensures Retained(log, 1, 0, 0) == log
  {
  }

  /** A filter that drops an event ends the listing early: with pages of one, the third event
      matches and is lost. */
  lemma FilteredPagesLose() returns (w: World)
    ensures Reachable(w) && w.first <= |w.log| + 1
    ensures var all, keep := Retained(w.log, w.first, 0, 0), Keeps(Some(["x"]));
            && |all| == 3 && Filter(all, keep) == [all[0], all[2]] && Listed(all, 1, keep) == [all[0]]
            && !LosesNothing(all, 1, keep)
  {
    w := ThreeAdded("x", "y", "z");
    AllRetained(w.log);
    ThreeListed(w.log, Keeps(Some(["x"])));
  }

  // ---------------------------------------------------------------- TLVs that share a key

  const SLASHED := Tlv(6, "v", "a/5", 0)
  const PLAIN := Tlv(5, "6/v", "a", 0)

  lemma SharedKey(enterprise: nat)
    ensures TlvKey(SLASHED) == TlvKey(PLAIN.(enterprise := enterprise)) == "a/5/6/v"
  {
    assert Decimal(5) == "5" && Decimal(6) == "6";
    assert TlvKey(SLASHED) == "a/5/6/v" && TlvKey(PLAIN.(enterprise := enterprise)) == "a/5/6/v";
  }

  /** A merge can drop a TLV that no source repeats: one whose key reads the same, or one that only
      differs by its enterprise number. */
  lemma MergeDropsTlv()
    ensures PLAIN != SLASHED && MergedTlvs([SLASHED], [PLAIN]) == [SLASHED]
    ensures MergedTlvs([PLAIN], [PLAIN.(enterprise := 1)]) == [PLAIN]
  {
    SharedKey(0);
    SharedKey(1);
    NothingFresh(SLASHED, PLAIN);
    NothingFresh(PLAIN, PLAIN.(enterprise := 1));
  }

  lemma NothingFresh(a: Tlv, b: Tlv)
    requires TlvKey(a) == TlvKey(b)
    ensures MergedTlvs([a], [b]) == [a]
  {
    var seen := TlvKeys([a]);
    assert a in [a] && [b][0] == b && [b][1..] == [];
    assert FreshTlvs([b], seen) == FreshTlvs([], seen) == [];
  }

  // ---------------------------------------------------------------- overlapping edits

  const P := Peer("p", "d", false, "", SessionDisabled, 0, 0, 0, "")

  const STORE_P := ApplyStep(PutPeer(P, "peer created"), 0, true, true)

  /** Enables or disables the peer, expecting version 2. */
  function Switch(on: bool): Request {
    Request(SetAdmin("p", 2, on), _ => true, 0)
  }

  lemma StorePSane()
    ensures Sane(STORE_P)
  {
  }

  lemma StoreP(w: World)
    requires Inv(w) && !w.s.stuck && w.s.revision == 1
    ensures !Next(w, STORE_P).s.stuck && Next(w, STORE_P).s.revision == 2
    ensures PeerAt(Next(w, STORE_P).s.mem, "p") == Some(P.(resourceVersion := 2))
  {
  }

  lemma SwitchPlanned(w: World, on: bool)
    requires PeerAt(w.s.mem, "p") == Some(P.(resourceVersion := 2))
    ensures Passes(w, Switch(on))
    ensures PeerOf(PlanOf(w.s.mem, Switch(on).op, Switch(on).sound).m) == Some(P.(resourceVersion := 2, enabled := on))
  {
  }

  /** The request that read state r commits in state w, and leaves the peer switched on or off. */
  ghost predicate Switches(r: World, w: World, on: bool) {
    && Open(w) && Passes(r, Switch(on))
    && var w' := Landed(r, w, Switch(on));
       && Inv(w') && w'.s.stuck == w.s.stuck && w'.s.revision == w.s.revision + 1
       && Unversioned(PeerAt(w'.s.mem, "p")) == Some(P.(enabled := on))
  }

  /** Two requests with one expected version, one enabling and one disabling the peer, that read the same
      state: both commit, and the peer ends up disabled. Enabling it is lost. */
  ghost predicate EnablingLost(w: World) {
    && Guard(Switch(true).op) == Guard(Switch(false).op) == Some(("p", 2))
    && Switches(w, w, true) && Switches(w, Landed(w, w, Switch(true)), false)
  }

  lemma SwitchLands(r: World, w: World, on: bool)
    requires Inv(r) && Open(w) && PeerAt(r.s.mem, "p") == Some(P.(resourceVersion := 2))
    ensures Switches(r, w, on)
  {
    SwitchPlanned(r, on);
    LandedCommits(r, w, Switch(on));
    LandedPeer(r, w, Switch(on));
  }

  lemma SwitchesOverlap(w: World)
    requires Open(w) && w.s.revision == 2 && PeerAt(w.s.mem, "p") == Some(P.(resourceVersion := 2))
    ensures EnablingLost(w)
  {
    SwitchLands(w, w, true);
    OpenAfter(w);
    SwitchLands(w, Landed(w, w, Switch(true)), false);
    SameGuard();
  }

  lemma OpenAfter(w: World)
    requires Switches(w, w, true) && w.s.revision == 2
    ensures Open(Landed(w, w, Switch(true)))
  {
  }

  lemma SameGuard()
    ensures Guard(Switch(true).op) == Guard(Switch(false).op) == Some(("p", 2))
  {
  }

  lemma StorePReaches(w: World) returns (w': World)
    requires Reachable(w) && !w.s.stuck && |w.log| == 1
    ensures Reachable(w') && Open(w') && w'.s.revision == 2
    ensures PeerAt(w'.s.mem, "p") == Some(P.(resourceVersion := 2))
  {
    StorePSane();
    StepReaches(w, STORE_P);
    StoreP(w);
    w' := Next(w, STORE_P);
    StepKeeps(w, STORE_P);
  }

  lemma EditsOverlap() returns (w: World)
    ensures Reachable(w) && EnablingLost(w)
  {
    var w0 := OneAdded("d");
    w := StorePReaches(w0);
    SwitchesOverlap(w);
  }

  // ---------------------------------------------------------------- a listing that never ends

  /** From the largest revision every event is listed, the first page of one is full, and its token leads
      back to it. */
  ghost predicate Repeats(log: seq<Event>, c: Codec) {
    var all, keep := Retained(log, 1, MAX_U64, 0), Keeps(None);
    && all == log && FullPage(all, 1, keep)
    && var token := ChangesPage(all, 1, keep, c).token;
       token != "" && ResumeAt(MAX_U64, token, c) == MAX_U64
  }

  lemma ThreeRepeat(log: seq<Event>, c: Codec)
    requires Lossless(c) && |log| == 3
    ensures Repeats(log, c)
  {
    AllFromLargest(log);
    FirstPageFull(log, Keeps(None));
    LargestStartRepeats(log, 1, Keeps(None), c);
  }

  lemma ListingRepeats(c: Codec) returns (w: World)
    requires Lossless(c)
    ensures Reachable(w) && w.first == 1 && Repeats(w.log, c)
  {
    w := ThreeAdded("x", "y", "z");
    ThreeRepeat(w.log, c);
  }

  lemma FirstPageFull(all: seq<Event>, keep: Event -> bool)
    requires |all| == 3 && forall e :: keep(e)
    ensures FullPage(all, 1, keep)
  {
    FilterSize(all[..2], keep);
  }

  lemma AllFromLargest(log: seq<Event>)
    requires |log| <= MAX_U64
    ensures Retained(log, 1, MAX_U64, 0) == log
  {
  }
}
