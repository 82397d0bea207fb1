/** Reads of the journal over the API: page by page and as a difference between revisions
    (internal/api/topology.go:425-482). */
module Changes {
  import opened Entities
  import opened Sorting
  import opened Keys
  import opened Journal
  import opened Database
  import opened History
  import opened Paging

  /** containsString on the domains of a filter; no filter, or an empty list, keeps everything. */
  predicate InDomains(domains: Option<seq<string>>, e: Event) {
    domains.None? || domains.value == [] || e.domainId in domains.value
  }

  function Keeps(domains: Option<seq<string>>): Event -> bool {
    e => InDomains(domains, e)
  }

  /** No filter keeps everything, and so does one without domains; any other keeps the events of its
      domains. */
  lemma KeepsExactly(domains: Option<seq<string>>, e: Event)
    ensures domains.None? || domains == Some([]) ==> Keeps(domains)(e)
    ensures domains.Some? && domains.value != [] ==>
              (Keeps(domains)(e) <==> exists i :: 0 <= i < |domains.value| && domains.value[i] == e.domainId)
  {
  }

  /** Resuming after the n-th retained event retains exactly the rest. */
  lemma RetainedAfter(log: seq<Event>, first: nat, cursor: uint64, before: uint64, n: nat)
    requires Faithful(log) && 1 <= first <= |log| + 1 && |log| <= MAX_U64
    requires 0 < n <= |Retained(log, first, cursor, before)|
    ensures var all := Retained(log, first, cursor, before);
            var r := all[n - 1].revision;
            && 1 <= r <= |log| && r <= UpperRevision(before) && (cursor < MAX_U64 ==> cursor < r)
            && (n < |all| ==> r < UpperRevision(before) && r < |log|)
            && (r < MAX_U64 ==> Retained(log, first, r, before) == all[n..])
  {
    var lo := WindowLo(log, first, AddU64(cursor, 1));
    assert FaithfulAt(log, lo - 1 + n - 1);
  }

  /** Drops the events outside the domains. */
  method KeepEvents(events: seq<Event>, domains: Option<seq<string>>) returns (out: seq<Event>)
    ensures out == Filter(events, Keeps(domains))
  {
    out := [];
    var keep := Keeps(domains);
    for i := 0 to |events|
      invariant out == Filter(events[..i], keep)
    {
      assert events[..i + 1] == events[..i] + [events[i]];
      FilterConcat(events[..i], [events[i]], keep);
      assert [events[i]][1..] == [];
      if InDomains(domains, events[i]) { out := out + [events[i]]; }
    }
    assert events[..|events|] == events;
  }

  lemma SplitFilter(events: seq<Event>, n: nat, keep: Event -> bool)
    requires n <= |events|
    ensures Filter(events, keep) == Filter(events[..n], keep) + Filter(events[n..], keep)
  {
    assert events == events[..n] + events[n..];
    FilterConcat(events[..n], events[n..], keep);
  }

  // ---------------------------------------------------------------- DiffTopology

  datatype DiffResult = Diff(changes: seq<Event>) | BadRange

  /** DiffTopology: exactly the retained events in (lo, hi] that pass the filter, in order. */
  method DiffTopology(db: Db, lo: uint64, hi: uint64, domains: Option<seq<string>>, ghost log: seq<Event>,
                      ghost first: nat)
    returns (r: DiffResult)
    requires EventsHold(db, log, first) && Faithful(log)
    ensures r == if lo >= hi then BadRange else Diff(Filter(Retained(log, first, lo, hi), Keeps(domains)))
  {
    if lo >= hi { return BadRange; }
    var out: seq<Event> := [];
    var cursor := lo;
    ghost var keep, left := Keeps(domains), Retained(log, first, lo, hi);
    while cursor < hi
      invariant lo <= cursor <= hi
      invariant if cursor < hi then left == Retained(log, first, cursor, hi) else left == []
      invariant out + Filter(left, keep) == Filter(Retained(log, first, lo, hi), keep)
      decreases hi - cursor
    {
      var events := Events(db, cursor, hi, 10000, log, first);
      if |events| == 0 { break; }
      var kept := KeepEvents(events, domains);
      SplitFilter(left, |events|, keep);
      Assoc(out, kept, Filter(left[|events|..], keep));
      RetainedAfter(log, first, cursor, hi, |events|);
      out := out + kept;
      cursor, left := events[|events| - 1].revision, left[|events|..];
    }
    r := Diff(out);
  }

  /** An event is in a difference exactly when it is retained, within the range and of the domains asked
      for. */
  lemma DiffExactly(log: seq<Event>, first: nat, lo: uint64, hi: uint64, domains: Option<seq<string>>, r: uint64)
    requires Faithful(log) && 1 <= first <= |log| + 1 <= MAX_U64 + 1 && lo < hi && 1 <= r <= |log|
    ensures log[r - 1] in Filter(Retained(log, first, lo, hi), Keeps(domains)) <==>
            first <= r && lo < r <= hi
            && (domains.None? || domains == Some([]) || log[r - 1].domainId in domains.value)
  {
    var all := Retained(log, first, lo, hi);
    RetainedExact(log, first, lo, hi, r);
    assert FaithfulAt(log, r - 1);
    FilterMembers(all, Keeps(domains));
    KeepsExactly(domains, log[r - 1]);
  }

  /** An unfiltered difference between retained revisions, replayed on the maps of the first, yields
      the maps of the second. */
  lemma DiffReplays(log: seq<Event>, first: nat, lo: uint64, hi: uint64)
    requires 1 <= first <= |log| + 1 && first - 1 <= lo < hi <= |log|
    ensures RedoAll(StateAt(log, lo), Filter(Retained(log, first, lo, hi), Keeps(None))) == StateAt(log, hi)
  {
    RetainedBetween(log, first, lo, hi);
    FilterSize(log[lo..hi], Keeps(None));
    RedoReaches(log, lo, hi);
  }

  // ---------------------------------------------------------------- ListChanges

  datatype ChangePage = ChangePage(events: seq<Event>, token: string)

  /** Where a request resumes: its token if that decodes to a later revision, else its own bound. */
  function ResumeAt(after: uint64, token: string, c: Codec): uint64 {
    if token == "" then after
    else
      match ParseUint(c.decode(token))
      case Some(n) => if n > after then n else after
      case None => after
  }

  /** A token moves the start forward, and only if it is a later revision. */
  lemma ResumesLater(after: uint64, token: string, c: Codec)
    ensures var n := ParseUint(c.decode(token));
            && (token != "" && n.Some? && n.value > after ==> ResumeAt(after, token, c) == n.value)
            && (!(token != "" && n.Some? && n.value > after) ==> ResumeAt(after, token, c) == after)
  {
  }

  /** One page: the fetched events are filtered first, and only then is the page cut. */
  function ChangesPage(all: seq<Event>, size: nat, keep: Event -> bool, c: Codec): ChangePage
    requires size > 0
  {
    var kept := Filter(all[..Min(|all|, size + 1)], keep);
    if |kept| > size then ChangePage(kept[..size], c.encode(Decimal(kept[size - 1].revision)))
    else ChangePage(kept, "")
  }

  method ListChanges(db: Db, after: uint64, before: uint64, requested: Option<nat>, token: string,
                     domains: Option<seq<string>>, c: Codec, ghost log: seq<Event>, ghost first: nat)
    returns (page: ChangePage)
    requires EventsHold(db, log, first)
    ensures page == ChangesPage(Retained(log, first, ResumeAt(after, token, c), before), PageSize(requested),
                                Keeps(domains), c)
  {
    var size := PageSize(requested);
    var events := Events(db, ResumeAt(after, token, c), before, size + 1, log, first);
    var kept := KeepEvents(events, domains);
    if |kept| > size {
      page := ChangePage(kept[..size], c.encode(Decimal(kept[size - 1].revision)));
    } else {
      page := ChangePage(kept, "");
    }
  }

  /** What following the tokens lists in the end: page after page while every fetched event is kept,
      and nothing beyond the first page that drops one. */
  function Listed(all: seq<Event>, size: nat, keep: Event -> bool): (r: seq<Event>)
    requires size > 0
    decreases |all|
  {
    var kept := Filter(all[..Min(|all|, size + 1)], keep);
    FilterSize(all[..Min(|all|, size + 1)], keep);
    if |kept| > size then kept[..size] + Listed(all[size..], size, keep) else kept
  }

  /** The first event the filter drops, or the end. */
  function FirstDropped(all: seq<Event>, keep: Event -> bool): (d: nat)
    ensures d <= |all| && (forall i | 0 <= i < d :: keep(all[i])) && (d < |all| ==> !keep(all[d]))
  {
    if all == [] || !keep(all[0]) then 0 else 1 + FirstDropped(all[1..], keep)
  }

  /** Where the page that fetches position d ends: pages start at multiples of the size, and each
      fetches one event more than the size. */
  function FetchEnd(d: nat, size: nat): (n: nat)
    requires size > 0
    ensures d < n <= d + size + 1
    decreases d
  {
    if d <= size then size + 1 else size + FetchEnd(d - size, size)
  }

  /** Where the listing stops, at the latest. */
  function StopsAt(all: seq<Event>, size: nat, keep: Event -> bool): (n: nat)
    requires size > 0
  {
    FetchEnd(FirstDropped(all, keep), size)
  }

  /** No event to keep lies beyond the page that fetches the first dropped one. */
  ghost predicate LosesNothing(all: seq<Event>, size: nat, keep: Event -> bool)
    requires size > 0
  {
    DropsFrom(all, StopsAt(all, size, keep), keep)
  }

  ghost predicate DropsFrom(all: seq<Event>, n: nat, keep: Event -> bool) {
    forall i | n <= i < |all| :: !keep(all[i])
  }

  lemma {:induction false} FirstDroppedIs(all: seq<Event>, keep: Event -> bool, d: nat)
    requires d <= |all| && (forall i | 0 <= i < d :: keep(all[i])) && (d < |all| ==> !keep(all[d]))
    ensures FirstDropped(all, keep) == d
    decreases |all|
  {
    if d > 0 {
      assert forall i | 0 <= i < |all| - 1 :: all[1..][i] == all[i + 1];
      FirstDroppedIs(all[1..], keep, d - 1);
    }
  }

  /** Up to the first dropped event the filter keeps everything. */
  lemma KeptPrefix(all: seq<Event>, keep: Event -> bool, n: nat)
    requires n <= FirstDropped(all, keep)
    ensures Filter(all[..n], keep) == all[..n]
  {
    FilterSize(all[..n], keep);
  }

  /** A page is full exactly when the first dropped event lies beyond it. */
  lemma FullIffKept(all: seq<Event>, size: nat, keep: Event -> bool)
    ensures FullPage(all, size, keep) <==> FirstDropped(all, keep) > size
  {
    var n, d := Min(|all|, size + 1), FirstDropped(all, keep);
    FilterSize(all[..n], keep);
    if d < n { assert !keep(all[..n][d]); }
  }

  lemma DropsShift(all: seq<Event>, size: nat, n: nat, keep: Event -> bool)
    requires size <= |all|
    ensures DropsFrom(all, size + n, keep) <==> DropsFrom(all[size..], n, keep)
  {
    if DropsFrom(all[size..], n, keep) {
      forall i | size + n <= i < |all| ensures !keep(all[i]) {
        assert all[size..][i - size] == all[i];
      }
    }
  }

  lemma DroppedLater(all: seq<Event>, size: nat, keep: Event -> bool)
    requires size <= FirstDropped(all, keep)
    ensures FirstDropped(all[size..], keep) == FirstDropped(all, keep) - size
  {
    var d, rest := FirstDropped(all, keep), all[size..];
    assert forall i | 0 <= i < |rest| :: rest[i] == all[size + i];
    FirstDroppedIs(rest, keep, d - size);
  }

  lemma StopsLater(all: seq<Event>, size: nat, keep: Event -> bool)
    requires 0 < size < FirstDropped(all, keep)
    ensures StopsAt(all, size, keep) == size + StopsAt(all[size..], size, keep)
  {
    DroppedLater(all, size, keep);
  }

  /** After a full page the condition is that of the rest. */
  lemma LosesLater(all: seq<Event>, size: nat, keep: Event -> bool)
    requires 0 < size < FirstDropped(all, keep)
    ensures LosesNothing(all, size, keep) <==> LosesNothing(all[size..], size, keep)
  {
    StopsLater(all, size, keep);
    DropsShift(all, size, StopsAt(all[size..], size, keep), keep);
  }

  lemma NoneKept(events: seq<Event>, keep: Event -> bool)
    ensures Filter(events, keep) == [] <==> forall i | 0 <= i < |events| :: !keep(events[i])
  {
    FilterMembers(events, keep);
    forall i | 0 <= i < |events| && keep(events[i]) ensures events[i] in Filter(events, keep) {
      assert events[i] in events;
    }
    if Filter(events, keep) != [] {
      assert Filter(events, keep)[0] in Filter(events, keep);
    }
  }

  /** A page that drops an event ends the listing: what lies beyond it is lost. */
  lemma StopsHere(all: seq<Event>, size: nat, keep: Event -> bool)
    requires size > 0 && FirstDropped(all, keep) <= size
    ensures Listed(all, size, keep) == Filter(all, keep) <==> LosesNothing(all, size, keep)
  {
    var n := Min(|all|, size + 1);
    FullIffKept(all, size, keep);
    SplitFilter(all, n, keep);
    SamePrefix(Filter(all[..n], keep), [], Filter(all[n..], keep));
    assert Filter(all[..n], keep) + [] == Filter(all[..n], keep);
    NoneKept(all[n..], keep);
    if LosesNothing(all, size, keep) {
      forall i | 0 <= i < |all[n..]| ensures !keep(all[n..][i]) { assert !keep(all[n + i]); }
    } else {
      var i :| size + 1 <= i < |all| && keep(all[i]);
      assert all[n..][i - n] == all[i];
    }
  }

  /** Following the tokens lists every matching event exactly when no matching event lies beyond the
      page that fetches the first event the filter drops. */
  lemma {:induction false} ListedComplete(all: seq<Event>, size: nat, keep: Event -> bool)
    requires size > 0
    ensures Listed(all, size, keep) == Filter(all, keep) <==> LosesNothing(all, size, keep)
    decreases |all|
  {
    if FirstDropped(all, keep) <= size {
      StopsHere(all, size, keep);
    } else {
      ListedComplete(all[size..], size, keep);
      LosesLater(all, size, keep);
      FullPageListed(all, size, keep);
      SamePrefix(all[..size], Listed(all[size..], size, keep), Filter(all[size..], keep));
    }
  }

  lemma FullPageListed(all: seq<Event>, size: nat, keep: Event -> bool)
    requires size > 0 && FirstDropped(all, keep) > size
    ensures Listed(all, size, keep) == all[..size] + Listed(all[size..], size, keep)
    ensures Filter(all, keep) == all[..size] + Filter(all[size..], keep)
  {
    KeptPrefix(all, keep, size + 1);
    KeptPrefix(all, keep, size);
    SplitFilter(all, size, keep);
    ListedFull(all, size, keep, all[..size + 1]);
  }

  lemma ListedFull(all: seq<Event>, size: nat, keep: Event -> bool, page: seq<Event>)
    requires 0 < size < |all| && page == all[..size + 1] && Filter(page, keep) == page
    ensures Listed(all, size, keep) == all[..size] + Listed(all[size..], size, keep)
  {
    assert page[..size] == all[..size];
  }

  lemma SamePrefix<T>(p: seq<T>, a: seq<T>, b: seq<T>)
    ensures p + a == p + b <==> a == b
  {
    if p + a == p + b {
      assert a == (p + a)[|p|..] == (p + b)[|p|..] == b;
    }
  }

  /** In particular when the filter drops nothing. */
  lemma KeepingAllLosesNothing(all: seq<Event>, size: nat, keep: Event -> bool)
    requires size > 0 && forall i | 0 <= i < |all| :: keep(all[i])
    ensures Listed(all, size, keep) == all
  {
    FirstDroppedIs(all, keep, |all|);
    ListedComplete(all, size, keep);
    FilterSize(all, keep);
  }

  /** A client that follows the tokens of ListChanges over a fixed database. It ends unless it starts
      at the largest revision and the first page is full. */
  method FollowChanges(db: Db, after: uint64, before: uint64, requested: Option<nat>, domains: Option<seq<string>>,
                       c: Codec, ghost log: seq<Event>, ghost first: nat)
    returns (pages: seq<seq<Event>>)
    requires EventsHold(db, log, first) && Faithful(log) && Lossless(c)
    requires after < MAX_U64 || !FullPage(Retained(log, first, after, before), PageSize(requested), Keeps(domains))
    ensures Concat(pages) == Listed(Retained(log, first, after, before), PageSize(requested), Keeps(domains))
    ensures pages != [] && |pages[|pages| - 1]| <= PageSize(requested)
    ensures forall i | 0 <= i < |pages| - 1 :: |pages[i]| == PageSize(requested)
    ensures var all := Retained(log, first, after, before);
            Concat(pages) == Filter(all, Keeps(domains)) <==> LosesNothing(all, PageSize(requested), Keeps(domains))
  {
    ListedComplete(Retained(log, first, after, before), PageSize(requested), Keeps(domains));
    var size := PageSize(requested);
    pages := [];
    var token := "";
    ghost var keep, left := Keeps(domains), Retained(log, first, after, before);
    ghost var goal := Listed(left, size, keep);
    assert Concat(pages) + goal == goal;
    while true
      invariant left == Retained(log, first, ResumeAt(after, token, c), before)
      invariant ResumeAt(after, token, c) < MAX_U64 || !FullPage(left, size, keep)
      invariant Concat(pages) + Listed(left, size, keep) == goal
      invariant forall i | 0 <= i < |pages| :: |pages[i]| == size
      decreases |left|
    {
      var page := ListChanges(db, after, before, requested, token, domains, c, log, first);
      AddListed(pages, left, size, keep, c);
      if FullPage(left, size, keep) { TokenResumes(log, first, after, before, token, size, keep, c); }
      pages := pages + [page.events];
      token := page.token;
      if token == "" { break; }
      left := left[size..];
    }
  }

  /** From the largest revision a full page answers with a token that leads back to itself, so
      following the tokens never ends. */
  lemma LargestStartRepeats(all: seq<Event>, size: nat, keep: Event -> bool, c: Codec)
    requires Lossless(c) && size > 0 && FullPage(all, size, keep)
    ensures var page := ChangesPage(all, size, keep, c); page.token != "" && ResumeAt(MAX_U64, page.token, c) == MAX_U64
  {
  }

  predicate FullPage(all: seq<Event>, size: nat, keep: Event -> bool) {
    |Filter(all[..Min(|all|, size + 1)], keep)| > size
  }

  /** A page takes its share of what is listed. */
  lemma AddListed(pages: seq<seq<Event>>, all: seq<Event>, size: nat, keep: Event -> bool, c: Codec)
    requires size > 0
    ensures var page := ChangesPage(all, size, keep, c);
            if FullPage(all, size, keep)
            then && size < |all|
                 && Concat(pages + [page.events]) + Listed(all[size..], size, keep)
                    == Concat(pages) + Listed(all, size, keep)
            else Concat(pages + [page.events]) == Concat(pages) + Listed(all, size, keep)
  {
    var page := ChangesPage(all, size, keep, c);
    ConcatSnoc(pages, page.events);
    FilterSize(all[..Min(|all|, size + 1)], keep);
    if FullPage(all, size, keep) {
      assert Listed(all, size, keep) == page.events + Listed(all[size..], size, keep);
      Assoc(Concat(pages), page.events, Listed(all[size..], size, keep));
    }
  }

  /** The token of a full page resumes right after it. */
  lemma TokenResumes(log: seq<Event>, first: nat, after: uint64, before: uint64, token: string, size: nat,
                     keep: Event -> bool, c: Codec)
    requires Faithful(log) && 1 <= first <= |log| + 1 && |log| <= MAX_U64 && Lossless(c) && size > 0
    requires ResumeAt(after, token, c) < MAX_U64
    requires var all := Retained(log, first, ResumeAt(after, token, c), before);
             FullPage(all, size, keep)
    ensures var all := Retained(log, first, ResumeAt(after, token, c), before);
            var page := ChangesPage(all, size, keep, c);
            && size < |all| && page.events == all[..size] && page.token != ""
            && ResumeAt(after, page.token, c) < MAX_U64
            && Retained(log, first, ResumeAt(after, page.token, c), before) == all[size..]
  {
    var cursor := ResumeAt(after, token, c);
    var all := Retained(log, first, cursor, before);
    var n := Min(|all|, size + 1);
    FilterSize(all[..n], keep);
    RetainedAfter(log, first, cursor, before, size);
    var r := all[size - 1].revision;
    assert all[..n][size - 1] == all[size - 1] && all[..n][..size] == all[..size];
    DecimalParses(r);
  }
}
