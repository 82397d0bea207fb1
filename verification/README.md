# A verified model of the bgPLS topology service

bgPLS keeps one revisioned picture of a network, fed by BGP-LS advertisements from several peers. This
project models its four core parts and proves what holds of them for every input, every run or every
reachable state:

1. **Paths and impact** (`Graphs`, `Shortest`, `Routes`, `Alternatives`, `PathLaws`, `Impact`, `PathService`): the
   constrained shortest-path search with its 64-bit overflow guard and least-id tie-break, routes through
   ordered waypoints, equal-cost alternatives, the partition that a set of failures leaves behind, and the
   whole way from the stored maps to these answers.
2. **The revisioned store** (`Keys`, `Journal`, `Gaps`, `Database`, `Recovery`, `Retention`,
   `StoreModel`, `StoreLaws`, `History`, `Stores`): current-state maps, the event journal, point-in-time reads, retention,
   restart and live subscriptions, as a state machine with its whole history beside it, and as a class that
   follows the state machine step for step.
3. **The reconciler** (`Merge`, `Reconcile`): per-peer advertisements in, canonical entities out.
4. **Readers and peer operations** (`Paging`, `Streaming`, `Changes`, `Peering`, `PeerLaws`): page tokens, chunked
   streams and change listings against the single read they stand for, and edits guarded by resource
   versions.

`Orders` and `Sorting` hold the byte order on strings and the sort that Go's `sort.Slice` is modelled by;
`Entities` holds the records and Go's `uint64`; `Limits` holds concrete inputs on which a natural reading of
the code fails.

How the main claims fit together:

* A *chain* is a list of usable links that follow one another, and `IsCanonical` defines, without mention of
  the search, the one cheapest chain that wins every tie. `Shortest.ShortestPath` returns it, and
  `Graphs.CanonicalUnique` shows that there is only one. The search terminates because every push uses up a
  (node, cost, link id) that no later push can use.
* `StoreModel.World` pairs the store's state with every event ever committed. `Inv` ties the database, the
  memory and all subscription channels to that history. Every step keeps it (`StepKeeps`), hence every
  reachable state has it (`ReachableKeeps`). The class `Stores.Store` is proved to move from `World` to
  `World` by these steps only.
* The reconciler's table always holds each peer's latest advertisement that was not withdrawn (`Live`), and
  the stored entity is a function of those alone (`StoreAgrees`, `RunsAgree`, `StoredParts`).

`PathLaws`, `StoreLaws` and `PeerLaws` state the main results once more on the records alone: on metrics,
constraints and include nodes, on stored fields and channels, on peers.

Eight natural properties do not hold of the code as it stands. Each has an exact condition and a
witness that the code can meet:

* the total of a route through waypoints wraps when no chain through them fits in 64 bits
  (`Routes.TotalIsOptimal`, `Limits.WaypointTotalWraps`);
* over an empty journal an old revision is answered with the present maps, which is right exactly when
  nothing since then left a trace (`History.ReadAtExact`, `Journal.SameStateExactly`,
  `Limits.EmptyJournalMisreports`); an answer that holds an entity stamped above the revision is always
  wrong (`Journal.StampsAtMost`);
* retention that runs during such a read can make it miss events; the answer is right exactly when the
  missed ones are harmless (`Gaps.UndoneExactly`, `History.SnapshotAt`, `Limits.RetentionMidRead`);
* over an empty journal a watch from an old revision is not refused and skips what was cut
  (`StoreModel.WatchStartsExactly`, `Limits.EmptyJournalSkips`);
* following the pages of a filtered change listing can stop early
  (`Changes.ListedComplete`, `Limits.FilteredPagesLose`), and from the largest revision it can go round
  for ever (`Changes.LargestStartRepeats`, `Limits.ListingRepeats`);
* subscribing more than 256 events behind blocks while the store's lock is held
  (`StoreModel.SubscribeBlocks`, `StoreModel.StuckForGood`, `Limits.SubscriberBlocks`);
* two overlapping edits of a peer with one expected version can both commit, and the first is lost; this
  happens exactly when one commits between the other's read and write (`Peering.VersionStandsExactly`,
  `Peering.OverlapDisturbs`, `Peering.OverlapLosesUpdate`, `Limits.EditsOverlap`);
* merging can drop a TLV that no source repeats, exactly when a TLV that is only in the second list shares
  its key with another; with slash-free registries, when only their enterprise numbers differ
  (`Merge.MergeKeepsExactly`, `Merge.MergeKeepsPlain`, `Limits.MergeDropsTlv`).

The comment above `SnapshotAt` (`internal/store/store.go:383-385`) speaks of any retained revision; the code
also answers for revisions that are no longer retained once the journal is empty, and the model follows the
code.

## Model

| member | source | states |
|---|---|---|
| `Graphs.Metric` | internal/topology/graph.go:78-96 | every usable weight is at least 1; a link is unusable exactly when it lacks the TE or delay metric asked for |
| `PathLaws.MetricExact` | internal/topology/graph.go:78-96 | a link weighs its TE metric, its delay, or its IGP metric with zero counted as 1, and nothing when the one asked for is missing |
| `Graphs.Eligible` | internal/topology/graph.go:98-133 | the loops over avoided ids and admin groups decide exactly the declarative constraint predicate |
| `PathLaws.EligibleExact` | internal/topology/graph.go:98-133 | a link is eligible exactly when no constraint forbids it: topology, bandwidth, avoided link or node, required or excluded group |
| `Graphs.NewGraph` | internal/topology/graph.go:24-48 | the graph holds the last active node of each id and exactly the active links between such nodes, grouped by local node in id order |
| `Graphs.BuiltUnique` | internal/topology/graph.go:24-48 | with distinct link ids one input makes one graph |
| `Graphs.CanonicalUnique` | internal/topology/graph.go:164-168 | with distinct link ids there is one canonical chain between two nodes, so the answer cannot depend on input or pop order |
| `Shortest.PopLeast` | internal/topology/graph.go:57-76 | popping removes one item that no other precedes by cost, then node id, and keeps the rest |
| `Shortest.RelaxLink` | internal/topology/graph.go:152-168 | relaxing a link keeps the search invariant, and either changes nothing or uses up one of finitely many (node, cost, link id) |
| `Shortest.Expand` | internal/topology/graph.go:151-169 | after its links are relaxed a node's links can improve no distance and no tie |
| `Shortest.Search` | internal/topology/graph.go:139-170 | the loop terminates with every node nearer than the destination expanded at its final distance |
| `Shortest.NoneCheaper` | internal/topology/graph.go:139-170 | no chain of usable links, of any length, undercuts a recorded distance |
| `Shortest.PathToIsCanonical` | internal/topology/graph.go:164-183 | the predecessor links spell out a cheapest chain that takes the least link id at every tie |
| `Shortest.WalkBack` | internal/topology/graph.go:175-187 | the back-walk terminates, because distances fall, and never meets a missing predecessor |
| `Shortest.ShortestPath` | internal/topology/graph.go:135-189 | returns the canonical cheapest chain with its exact cost; no path exactly when an endpoint is missing or no chain fits in 64 bits |
| `PathLaws.CostIsHopSum` | internal/topology/graph.go:152-163 | what the search minimizes is the sum of the hop metrics of the links |
| `PathLaws.PathIsBestWalk` | internal/topology/graph.go:135-189 | a path is a walk of permitted links whose total is the sum of its hop metrics, and no permitted walk has a lesser sum |
| `PathLaws.LinkedExactly` | internal/topology/graph.go:135-138 | two nodes are linked exactly when both are in the graph and some permitted walk has a sum that fits in 64 bits |
| `PathLaws.FoundExactly` | internal/topology/graph.go:170-173 | a path is found exactly then |
| `Shortest.PrefixIsShortest` | internal/topology/graph.go:135-189 | every prefix of a shortest chain is shortest to where it ends |
| `Shortest.ShortestIsSimple` | internal/topology/graph.go:135-189 | a shortest chain repeats no node |
| `Routes.TourIsCheapest` | internal/topology/graph.go:191-206 | joining canonical legs is a cheapest way to visit the waypoints in order |
| `Routes.TourUnique` | internal/topology/graph.go:191-206 | with distinct link ids the waypoints determine the route |
| `Routes.JoinLegs` | internal/topology/graph.go:197-206 | fails exactly when some leg cannot be travelled; the sum of the legs is the exact cost modulo 2^64 |
| `Routes.Assemble` | internal/topology/graph.go:207-223 | the loop builds the hop list, delay and bottleneck of the links |
| `Routes.TakenHopList` | internal/topology/graph.go:209-217 | the links can be read back from the hops |
| `Routes.HopListAt` | internal/topology/graph.go:208-217 | hop i stands at the i-th node of the chain and leaves by its i-th link, from the source to the destination |
| `Routes.TotalDelayWraps` | internal/topology/graph.go:211 | the reported delay is the sum of link delays modulo 2^64, exact exactly when it fits |
| `Routes.BottleneckIsLeast` | internal/topology/graph.go:212-222 | the bottleneck is the least reservable bandwidth on the path, or zero when no link is below the largest double |
| `Routes.LargestDouble` | internal/topology/graph.go:207 | the bound that stands for no bandwidth is the largest finite double |
| `Routes.Compute` | internal/topology/graph.go:191-224 | a route exactly when every leg can be travelled, made of the canonical legs |
| `PathLaws.RouteVisitsIncludes` | internal/topology/graph.go:192-206 | a route is a walk of permitted links that visits the include nodes in the order given |
| `PathLaws.RouteIsBestWalk` | internal/topology/graph.go:192-206 | no walk that does so has a lesser sum of hop metrics, and the total is the route's own sum whenever one fits in 64 bits |
| `PathLaws.RouteExactly` | internal/topology/graph.go:192-206 | there is a route exactly when every two successive nodes of source, include nodes and destination are linked |
| `Routes.TotalIsOptimal` | internal/topology/graph.go:197-206 | the route is optimal among all chains through the waypoints, and its total is that optimum exactly when some chain through them fits in 64 bits |
| `Routes.RoutesAgree` | internal/topology/graph.go:191-224 | with distinct link ids there is one route between two nodes, hops, total, delay and bottleneck included |
| `Alternatives.JoinInjective` | internal/topology/graph.go:262-268 | path keys determine the node ids when no id contains a slash |
| `Alternatives.JoinMore` | internal/topology/graph.go:262-268 | joining one more part adds a slash and the part |
| `Alternatives.ExcludingChain` | internal/topology/graph.go:246-250 | under the added constraint exactly the chains without the excluded link id remain, at the same cost |
| `Alternatives.SomeLinkUnused` | internal/topology/graph.go:242-260 | of two different shortest chains the first has a link the second does without, so excluding each link in turn suffices |
| `Alternatives.AlternativeIsOptimal` | internal/topology/graph.go:251-258 | an alternative whose sum fits in 64 bits has the optimal cost |
| `Alternatives.CandidateFound` | internal/topology/graph.go:242-260 | if some shortest chain avoids a link of the selected route, excluding that link yields a new route of the same total |
| `Alternatives.ComputeMany` | internal/topology/graph.go:228-261 | between 1 and the clamped limit of routes, all within the original constraints and of the selected total, with pairwise different node sequences; without waypoints, parallel links and slashes a second route is found exactly when another shortest chain exists |
| `Alternatives.NonePassedOver` | internal/topology/graph.go:241-259 | for every query, a list short of the limit passes nothing over: for each link of the first route the answer without it has another total or the node sequence of a listed route |
| `Alternatives.NoneMissing` | internal/topology/graph.go:241-259 | with distinct link ids that is so of every such answer |
| `Alternatives.LaterIsAnswer` | internal/topology/graph.go:241-259 | every later route is the answer without some link of the first |
| `Alternatives.AlternativesUnique` | internal/topology/graph.go:228-261 | with distinct link ids there is one answer, order included |
| `PathLaws.AlternativeVisitsIncludes` | internal/topology/graph.go:241-259 | an alternative, too, is a walk of permitted links through the include nodes in order, with the selected total |
| `Impact.Undirect` | internal/topology/graph.go:279-286 | the neighbour lists hold exactly the pairs joined by an intact link, whatever the map order |
| `Impact.Flood` | internal/topology/graph.go:293-306 | the breadth-first search terminates and collects exactly the nodes connected to its root |
| `Impact.Components` | internal/topology/graph.go:287-309 | the collected components are whole classes of connected nodes in id order, all different, and cover every surviving node |
| `Impact.SharedIffConnected` | internal/topology/graph.go:287-309 | two surviving nodes share a component exactly when intact links connect them, ignoring direction |
| `Impact.PartitionUnique` | internal/topology/graph.go:307-315 | the ordered partition is unique, so map iteration order cannot show |
| `Impact.Analyze` | internal/topology/graph.go:270-338 | the report is the one that the partition determines |
| `Impact.DamageExactly` | internal/topology/graph.go:271-286 | what survives: nodes that did not fail, joined by links that neither failed nor end at a failed node |
| `Impact.ReportComponents` | internal/topology/graph.go:307-318 | the listed components: none while all surviving nodes are connected; otherwise each surviving node in exactly one, two sharing one exactly when connected, the largest first |
| `Impact.ReportUnreachable` | internal/topology/graph.go:319-337 | the unreachable nodes are exactly the survivors outside the first listed component |
| `Impact.PrefixesReportedOnce` | internal/topology/graph.go:323-337 | prefixes with distinct ids are reported once each |
| `Impact.ImpactMeaning` | internal/topology/graph.go:316-337 | unreachable nodes are exactly the survivors outside the largest component (ties to the least id), unreachable prefixes exactly those with a failed or unreachable origin, both in order |
| `Impact.ImpactUnique` | internal/topology/graph.go:270-338 | two runs on one input give the same report |
| `PathService.BuildGraph` | internal/api/topology.go:355-356 | the graph of a request is built from what the stored maps list for its domain |
| `PathService.NodesStored` | internal/api/topology.go:397-405 | the nodes of that graph are exactly the stored active nodes of the domain |
| `PathService.LinksStored` | internal/api/topology.go:406-414 | its links are exactly the stored active links of the domain between nodes of the graph |
| `PathService.PrefixesStored` | internal/api/topology.go:415-423 | the prefixes of a request are exactly the stored ones of the domain |
| `PathService.StoredLinksDistinct` | internal/api/topology.go:355-356 | since links are stored under their ids, the ids in that graph are distinct |
| `PathService.GraphUnique` | internal/api/topology.go:355-356 | the stored maps determine that graph |
| `PathService.ComputePaths` | internal/api/topology.go:346-362 | answers over that graph, with a path exactly when every leg can be travelled |
| `PathService.PathsUnique` | internal/api/topology.go:346-362 | the whole answer is a function of the stored maps and the request |
| `PathService.AnalyzeImpact` | internal/api/topology.go:363-370 | reports over that graph and the stored prefixes of the domain |
| `PathService.ImpactReportUnique` | internal/api/topology.go:363-370 | the report is a function of the stored maps and the request |
| `Keys.EventKeyOrder` | internal/store/store.go:181 | zero-padded event keys order byte-wise exactly as their 64-bit revisions |
| `Keys.EventKeyParses` | internal/store/store.go:541-552 | parsing the rest of an event key gives back its revision |
| `Keys.ParseUintExactly` | internal/store/store.go:550 | exactly the digit strings whose value fits in 64 bits parse |
| `Keys.PrefixRange` | internal/store/store.go:175-180 | the keys from a prefix up to its end are exactly the keys with that prefix |
| `Keys.BelowSuccessor` | internal/store/store.go:618 | a zero byte appended to a key bounds exactly the keys up to it |
| `Journal.Stamped` | internal/store/store.go:256-284 | stamping keeps an entity's key and gives it the revision |
| `Journal.UndoReaches` | internal/store/store.go:431-434 | undoing events newest first restores the maps of the earlier revision |
| `Journal.RedoReaches` | internal/store/store.go:318-346 | replaying the events between two revisions leads from the maps of one to those of the other |
| `Journal.StampIsLastTouch` | internal/store/store.go:256-284 | every stored entity carries the revision of the last mutation that touched it |
| `Journal.StampsAtMost` | internal/store/store.go:256-284 | no entity of a revision carries a later stamp |
| `Journal.SameValueExactly` | internal/store/store.go:256-284 | a key holds the same at two revisions exactly when nothing touched it in between or it was absent at both |
| `Journal.SameStateExactly` | internal/store/store.go:256-284 | an earlier revision had the present maps exactly when nothing touched since was there then or is there now |
| `Gaps.UndoneExactly` | internal/store/store.go:431-434 | undoing only some of the later events restores a revision exactly when every missed event before the first kept one of its key touched a key absent then and absent again by that point |
| `Database.DbKeyInjective` | internal/store/store.go:286-316 | different entities never share a database key |
| `Database.KeySpacesApart` | internal/store/store.go:21-29 | entities, events and the revision counter never share a database key |
| `Database.KeyForms` | internal/store/store.go:21-29 | how entity keys read |
| `Database.EventKeyForm` | internal/store/store.go:181 | how event keys read |
| `Database.WalkWindow` | internal/store/store.go:521-525 | a scan between event keys walks exactly the retained revisions in the range, in order |
| `Database.RetainedExact` | internal/store/store.go:517-525 | the events asked for are the retained ones above `after` and at most a non-zero `before`, gap-free and in order; only `after` = 2^64-1 wraps, and then skips nothing |
| `Database.Events` | internal/store/store.go:517-539 | returns the first `limit` of those events, with the limit clamped |
| `Database.OldestRevision` | internal/store/store.go:541-552 | returns the first retained revision, or zero over an empty journal |
| `Recovery.Load` | internal/store/store.go:109-172 | the five loading loops compute what the stored keys of each kind decode to |
| `Recovery.LoadFails` | internal/store/store.go:154-163 | a stored value that does not decode as its kind ends the load |
| `Recovery.LoadedIsMem` | internal/store/store.go:91-173 | a database that holds the maps loads as exactly those maps |
| `Retention.AgeCut` | internal/store/store.go:588-601 | the age rule takes exactly the longest prefix of events older than the cutoff |
| `Retention.FreedWraps` | internal/store/store.go:605-608 | the running sum is the bytes of the events modulo 2^64, exact exactly when they fit |
| `Retention.SizeCutShortest` | internal/store/store.go:606-613 | while the retained events take fewer than 2^64 bytes, the size rule takes the shortest prefix that reaches the target, or else the whole journal |
| `Retention.TargetExact` | internal/store/store.go:603-604 | the target wraps only if the usage drops far below the budget between its two readings; with a steady reading it is positive and at most the usage |
| `Retention.CompactHistory` | internal/store/store.go:581-623 | within the budget, or without one, a retained event goes exactly when it and every older one were observed before the cutoff; over it the events that go are the shortest non-empty prefix whose bytes reach usage - budget + budget/10, or the whole journal; nothing else is touched |
| `Retention.CutEvents` | internal/store/store.go:618-619 | what is left of the journal is the log from a later first revision on |
| `Retention.CutKeepsState` | internal/store/store.go:618-619 | the deletion touches no entity and not the revision counter |
| `StoreModel.ApplyKeeps` | internal/store/store.go:185-254 | a committed mutation keeps database, memory and channels in step with the history |
| `StoreModel.BacklogIsSuffix` | internal/store/store.go:557-564 | a backlog that fits the channel is the whole log after the start of the stream |
| `StoreModel.SubscribeBlocks` | internal/store/store.go:555-564 | subscribing blocks exactly when more than 256 events wait |
| `StoreModel.StreamStartExact` | internal/store/store.go:557-564 | the stream starts where it was asked to exactly when nothing after that was cut and it is not in the future |
| `StoreModel.WatchStartsExactly` | internal/api/topology.go:324-331 | an unrefused watch that is not ahead of the store starts where it asked exactly when the journal is non-empty or it asked for the present; over a non-empty journal the check refuses exactly the others |
| `StoreModel.SubscribeKeeps` | internal/store/store.go:554-579 | subscribing keeps the invariant |
| `StoreModel.CancelKeeps` | internal/store/store.go:569-577 | the end of a subscriber's context keeps the invariant and never closes a channel twice |
| `StoreModel.CompactKeeps` | internal/store/store.go:581-623 | retention keeps the invariant |
| `StoreModel.ReopenGivesMemory` | internal/store/store.go:74-173 | a restart gives back the same revision and the same five maps |
| `StoreModel.ReopenObserved` | internal/store/store.go:100-108 | a restart restores the observation time exactly when the newest event is retained |
| `StoreModel.EmptyInv` | internal/store/store.go:74-85 | an empty store satisfies the invariant that every step keeps |
| `StoreModel.StepKeeps` | internal/store/store.go:185-623 | every step, failed ones included, keeps the invariant |
| `StoreLaws.CommitStores` | internal/store/store.go:195-284 | a commit stores the value with its stamp (revision, last and first seen, default freshness) and nothing else changed, or removes it; its event carries the mutation's own domain, peer and reason, what was there and what is |
| `StoreLaws.CommitDelivers` | internal/store/store.go:245-252 | a registered channel with fewer than 256 events buffered gets the event, one with 256 is removed and closed, any other is left alone |
| `StoreLaws.SubscribeOpens` | internal/store/store.go:554-568 | within 256 events a subscription opens one channel that buffers every event after its start; beyond, none opens |
| `StoreLaws.ReceiveTakes` | internal/store/store.go:53-56 | a reader takes the oldest buffered event |
| `StoreLaws.CancelCloses` | internal/store/store.go:569-577 | the end of a subscriber's context closes its channel and touches no other |
| `StoreLaws.RestartForgets` | internal/store/store.go:74-85 | a restart keeps the database and leaves no subscription |
| `StoreLaws.TakenExactly` | internal/store/store.go:185-204 | which mutations are taken |
| `StoreModel.ReachableKeeps` | internal/store/store.go:185-623 | in every reachable state the retained revisions are empty or exactly oldest..revision, a restart changes nothing, and every entity carries the revision of its last mutation |
| `StoreModel.StuckForGood` | internal/store/store.go:555-564 | once a subscriber blocks under the lock, no run without a restart changes the maps or the log |
| `StoreModel.RunUndisturbed` | internal/store/store.go:245-252 | over any run a channel is closed at most once and never sent to afterwards |
| `StoreModel.SubscriberSeesEverything` | internal/store/store.go:554-579 | after any run, received plus buffered events are the gap-free revisions after+1..k, where k is the current revision while the channel is registered, and it is closed exactly when it is not |
| `History.Collect` | internal/store/store.go:418-430 | the chunks add up to exactly the events in the range, whatever commits meanwhile, except for those that retention removed before they were read |
| `History.UndoEvents` | internal/store/store.go:431-434 | the loop undoes the events newest first |
| `History.ReadAtExact` | internal/store/store.go:394-397 | with retention at rest an answer is wrong exactly when the journal was empty and the events since left a trace |
| `History.Rebuild` | internal/store/store.go:398-460 | the rebuilt maps are those of the revision exactly when the events missed to retention are harmless |
| `History.SnapshotAt` | internal/store/store.go:386-460 | whatever commits and whatever retention removes meanwhile: the error cases exactly; the maps of the revision exactly when the missed events are harmless, always when retention spares the events after it |
| `Stores.Store.constructor` | internal/store/store.go:74-85 | opening a database left by any run gives the revision and maps of that run |
| `Stores.Store.Publish` | internal/store/store.go:245-252 | every registered channel gets the event or, when full, is removed and closed |
| `Stores.Store.Apply` | internal/store/store.go:185-254 | commits exactly when the context is live, the mutation is complete and the batch commits; otherwise nothing changes; only a commit at the last revision, where the counter wraps to zero, breaks the store |
| `Stores.Store.Commit` | internal/store/store.go:217-254 | batch, memory, revision and subscribers change together |
| `Stores.Store.Subscribe` | internal/store/store.go:554-568 | the new state is the subscription step, and it blocks exactly when the backlog exceeds 256 |
| `Stores.Store.Receive` | internal/store/store.go:53-56 | the reader takes the oldest buffered event, and nothing else changes |
| `Stores.Store.Cancel` | internal/store/store.go:569-577 | the new state is the cancellation step |
| `Stores.Store.Compact` | internal/store/store.go:581-623 | the new state is the retention step, or nothing when the deletion fails |
| `Stores.Store.At` | internal/store/store.go:386-460 | point-in-time reads of a live store |
| `Merge.MergeString` | internal/topology/reconcile.go:151-159 | fills an empty value, else records a conflict exactly when the other value is set and differs |
| `Merge.MergeUint64` | internal/topology/reconcile.go:160-168 | the same for metrics, whose values are printed |
| `Merge.TlvKeyExact` | internal/topology/reconcile.go:171-179 | TLVs whose registries hold no slash share a key exactly when they differ at most in the enterprise number |
| `Merge.MergeTLVs` | internal/topology/reconcile.go:169-182 | keeps the selected TLVs and appends those with new keys |
| `Merge.FreshTlvsNew` | internal/topology/reconcile.go:174-180 | the appended TLVs have exactly the new keys, each once |
| `Merge.FreshTlvsSnoc` | internal/topology/reconcile.go:174-180 | the appended TLVs keep their order, and of those with one key the first is taken |
| `Merge.MergeKeepsExactly` | internal/topology/reconcile.go:169-182 | a merge keeps every TLV of both lists exactly when no TLV that is only in the second shares its key with another |
| `Merge.MergeKeepsPlain` | internal/topology/reconcile.go:169-182 | when no registry holds a slash, exactly when no TLV that is only in the second differs from another in the enterprise number alone |
| `Merge.MergeInto` | internal/topology/reconcile.go:103-150 | the field-by-field merge computes the merged entity; other kinds are left alone |
| `Merge.OthersNotMerged` | internal/topology/reconcile.go:83-110 | values of different kinds, and peers and domains, are left alone |
| `Merge.MergeEntityParts` | internal/topology/reconcile.go:103-150 | a merge fills every empty field, keeps every other, leaves unmerged fields alone and records exactly the differences |
| `Merge.PartsDetermine` | internal/topology/reconcile.go:103-150 | merged fields, unmerged fields, conflicts, TLVs and sources determine an entity, so nothing is left unspecified |
| `Merge.MergedTexts` | internal/topology/reconcile.go:71-78 | every merged field is the first non-empty value in order of preference |
| `Merge.MergedConflicts` | internal/topology/reconcile.go:71-78 | the conflicts are those of the top source, then exactly the differences from the final values |
| `Merge.RejectionsExact` | internal/topology/reconcile.go:151-168 | a conflict names a field and a peer exactly when that peer's value is set and differs from the final one |
| `Merge.NodeConflictNames` | internal/topology/reconcile.go:105-121 | a conflict of two nodes names the field in which they differ |
| `Merge.LinkConflictNames` | internal/topology/reconcile.go:122-139 | so does one of two links, with printed metrics |
| `Merge.PrefixConflictNames` | internal/topology/reconcile.go:140-149 | and one of two prefixes |
| `Merge.AllRejectionsExact` | internal/topology/reconcile.go:151-168 | the same over all sources at once |
| `Merge.MergedTlvLists` | internal/topology/reconcile.go:169-182 | the TLV list keeps the top source's TLVs and adds every other key exactly once |
| `Merge.MergeUpToParts` | internal/topology/reconcile.go:71-78 | merging the sources one after another is merging their parts |
| `Reconcile.SourceKeyInjective` | internal/topology/reconcile.go:34 | different entities have different source keys, whatever their ids contain |
| `Reconcile.RanksUnique` | internal/topology/reconcile.go:65-70 | preference, then peer id, orders the sources in one way only |
| `Reconcile.RankedOrder` | internal/topology/reconcile.go:65-70 | higher preference comes first, and among equals the lesser peer id |
| `Reconcile.Rank` | internal/topology/reconcile.go:61-70 | collecting the sources in any map order and sorting gives that order |
| `Reconcile.Canonicalize` | internal/topology/reconcile.go:71-79 | the loop merges the ranked sources into the first and lists their peers |
| `Reconcile.StoreHolds` | internal/topology/reconcile.go:45-58 | the source table holds each peer's latest advertisement that is not withdrawn |
| `Reconcile.LiveIsLast` | internal/topology/reconcile.go:45-56 | a peer is live for an entity exactly when its last advertisement of it is not withdrawn, with the preference and value of that one |
| `Reconcile.NeverLive` | internal/topology/reconcile.go:45-56 | a peer that never advertised an entity is not live for it |
| `Reconcile.StoreAgrees` | internal/topology/reconcile.go:36-81 | over every run in which nobody else writes the entity, whatever other writes fail and whatever others write elsewhere, an entity whose own last write succeeded is stored exactly when some peer's last advertisement is not withdrawn, and its content is their merge |
| `Reconcile.OthersMayWrite` | internal/topology/reconcile.go:36-81 | commits of others to other keys, such as the collector's to its peers, may come at any point of such a run |
| `Reconcile.TouchedSettles` | internal/topology/reconcile.go:36-81 | when all writes succeed, that holds of every entity touched |
| `Reconcile.RunsAgree` | internal/topology/reconcile.go:36-81 | two runs that leave the same live advertisements agree on the content |
| `Reconcile.StoredParts` | internal/topology/reconcile.go:61-79 | what the store then holds, part by part, in order of preference |
| `Reconcile.StoredConflicts` | internal/topology/reconcile.go:151-168 | the stored conflicts are those the top source came with and exactly one for each lower source and field whose value is set and differs from the stored one |
| `Reconcile.Reconciler.constructor` | internal/topology/reconcile.go:31-33 | a new reconciler has seen nothing |
| `Reconcile.ChangeFor` | internal/topology/reconcile.go:57-80 | the deletion when no source is left, else the canonical entity |
| `Reconcile.Reconciler.Land` | internal/topology/reconcile.go:57-80 | the store takes exactly that one step, or none |
| `Reconcile.Reconciler.Apply` | internal/topology/reconcile.go:36-81 | records the advertisement, then commits the canonical entity or the deletion its live advertisements call for; when the write fails the store is unchanged |
| `Reconcile.Reconciler.Record` | internal/topology/reconcile.go:45-58 | replaces or withdraws one peer's advertisement |
| `Paging.PageSize` | internal/api/filter.go:10-21 | a hundred by default, a thousand at most, and otherwise what was asked for |
| `Paging.Resume` | internal/api/topology.go:116-125 | resuming after a selected item selects exactly the items after it |
| `Paging.ListPage` | internal/api/topology.go:110-135 | one page holds the first matching items after the token, and a token for the last of them when there are more |
| `Paging.PageExactly` | internal/api/topology.go:116-133 | a page holds the first matching items after its start, as many as fit, and has a token exactly when more match |
| `Paging.FollowPages` | internal/api/topology.go:110-135 | following the tokens ends, for every page size, with every matching item once and in order, and every page but the last full |
| `Paging.ListKind` | internal/store/store.go:356-382 | a snapshot lists the entities of a kind once each, in id order, whatever the map order |
| `Paging.Browse` | internal/api/topology.go:110-135 | browsing a kind page by page yields exactly its matching stored entities, in id order |
| `Paging.ListingUnique` | internal/store/store.go:356-382 | the stored maps determine the listing |
| `Paging.FollowLive` | internal/api/topology.go:110-135 | without a fixed revision every page is cut from a listing of its own and starts where the token before it says |
| `Paging.LiveAscends` | internal/api/topology.go:110-135 | whatever changes between the pages, the ids ascend strictly from page to page, so that none repeats |
| `Paging.LiveComplete` | internal/api/topology.go:110-135 | an id that matches in every listing read is listed once the tokens end |
| `Streaming.Fill` | internal/api/topology.go:298-315 | takes the matching items from a cursor on, until the message is full or the list ends |
| `Streaming.NextMessage` | internal/api/topology.go:293-317 | a message is full or the last, and moves at least one cursor |
| `Streaming.StreamSnapshot` | internal/api/topology.go:286-323 | terminates; the messages add up to exactly the matching nodes, links and prefixes; all but the last carry 500, only the last is marked, only the first lists domains |
| `Changes.RetainedAfter` | internal/api/topology.go:466-480 | resuming at the revision of a retained event retains exactly the events after it |
| `Changes.DiffTopology` | internal/api/topology.go:460-482 | terminates with exactly the retained events in the range that pass the filter, in order |
| `Changes.KeepsExactly` | internal/api/filter.go:30-40 | no filter and one without domains keep everything, any other the events of its domains |
| `Changes.DiffExactly` | internal/api/topology.go:460-482 | an event is in a difference exactly when it is retained, in the range and of the domains asked for |
| `Changes.DiffReplays` | internal/api/topology.go:460-482 | an unfiltered difference replayed on the maps of its start gives the maps of its end |
| `Changes.ListChanges` | internal/api/topology.go:427-459 | one page: events are limited first and filtered afterwards |
| `Changes.ResumesLater` | internal/api/topology.go:430-436 | a token moves the start exactly when it decodes to a later revision |
| `Changes.ListedComplete` | internal/api/topology.go:437-457 | following the tokens is complete exactly when no matching event lies beyond the page that fetches the first dropped one |
| `Changes.KeepingAllLosesNothing` | internal/api/topology.go:437-457 | a filter that drops nothing loses nothing |
| `Changes.LargestStartRepeats` | internal/api/topology.go:429-436 | from revision 2^64-1 a full page answers with a token that leads back to itself |
| `Changes.FollowChanges` | internal/api/topology.go:427-459 | otherwise following the tokens ends, and lists every matching event exactly under that condition |
| `Peering.GuardedCommit` | internal/api/collector.go:141-206 | a guarded operation that commits found its expected version and leaves a later event on its peer |
| `Peering.VersionsSerialize` | internal/api/collector.go:141-206 | at most one guarded operation, each run without interruption, commits for a peer and an expected version, whatever happens in between, deletion and re-creation included |
| `Peering.LandedCommits` | internal/api/collector.go:141-206 | a write decided earlier commits all the same: nothing checks the version again |
| `Peering.VersionStandsExactly` | internal/api/collector.go:145-164 | the version an operation read still stands when it writes exactly if no commit to the peer came in between |
| `Peering.OverlapDisturbs` | internal/api/collector.go:141-206 | of two overlapping operations with one guard the second writer read before the first wrote, and the first commit fell between its read and its write |
| `Peering.OverlapLosesUpdate` | internal/api/collector.go:120-206 | two operations on one peer that read the same state both commit, and the peer is as if only the second had come |
| `Peering.CollectorService.Decide` | internal/api/collector.go:145-153 | the reads of an operation decide a write to its own peer that carries a value of its own key |
| `Peering.CollectorService.WritePlan` | internal/api/collector.go:133-139 | a planned write, however old, commits and is answered with the stored peer and its new version, without its secret |
| `Peering.CollectorService.Perform` | internal/api/collector.go:120-168 | creating, updating and changing the administrative state, when nothing commits between read and write, are one guarded step of the store each; the reply shows what is stored, without the secret |
| `Peering.CollectorService.DeletePeer` | internal/api/collector.go:169-185 | when nothing commits in between: an error of the session manager leaves the store alone; success removes the peer |
| `Peering.LastImportWins` | internal/api/collector.go:249-253 | the last imported peer of an id is what is stored, an empty secret keeping the one before it |
| `PeerLaws.CreateExactly` | internal/api/collector.go:120-128 | which creations are refused, and why |
| `PeerLaws.CreateStores` | internal/api/collector.go:128-135 | a new peer is stored as given, idle or disabled |
| `PeerLaws.UpdateExactly` | internal/api/collector.go:141-154 | an update needs a valid peer stored at the expected version |
| `PeerLaws.UpdateStores` | internal/api/collector.go:155-164 | an updated peer is stored as given but keeps the session state and counters it had, and its secret when none is given |
| `PeerLaws.GuardedExactly` | internal/api/collector.go:169-194 | a deletion and a change of the administrative state need a peer stored at the expected version |
| `PeerLaws.SetAdminStores` | internal/api/collector.go:195-201 | a changed peer differs in its administrative state alone, and in its session when disabled |
| `PeerLaws.DeleteRemoves` | internal/api/collector.go:181-183 | a deleted peer is gone |
| `PeerLaws.PlanReports` | internal/api/collector.go:133-271 | the event of an operation names its peer's domain and what was done |
| `PeerLaws.ImportKeepsSecret` | internal/api/collector.go:250-252 | an imported peer keeps the stored secret exactly when it brings none |
| `PeerLaws.ShownExactly` | internal/api/collector.go:43-47 | a reply shows the stored peer with nothing but the secret taken out |
| `Peering.NotImported` | internal/api/collector.go:248-260 | an id that is not imported keeps what was stored under it |
| `Peering.CollectorService.ImportPeerConfig` | internal/api/collector.go:238-279 | nothing is written unless every peer is valid; imported peers are stored as given, up to the first failure; other peers are unchanged or, with replace, at most removed; after a successful replace exactly the imported peers remain; nothing else changes |
| `Peering.CollectorService.PutNext` | internal/api/collector.go:248-256 | one more imported peer is stored, or nothing changes |
| `Peering.CollectorService.PutAll` | internal/api/collector.go:248-260 | the first n imported peers are stored in order, and nothing else changes |
| `Peering.CollectorService.RemoveOthers` | internal/api/collector.go:261-272 | the peers of the snapshot that were not imported are removed, and the imported ones stay |
| `Limits.WaypointTotalWraps` | internal/topology/graph.go:205 | over two legs of weight 2^63 whatever Compute answers is a route of total zero |
| `Limits.EmptyJournalMisreports` | internal/store/store.go:394-397 | a reachable store whose whole journal was cut answers revision 1 with the maps of revision 2, which differ |
| `Limits.EmptyJournalSkips` | internal/api/topology.go:324-331 | the same store does not refuse a watch from revision 0 and starts it at revision 2 |
| `Limits.RetentionMidRead` | internal/store/store.go:394-430 | retention between the check and the first chunk makes a reachable store answer revision 1 with the maps of revision 2, which differ |
| `Limits.SubscriberBlocks` | internal/store/store.go:555-564 | a reachable store with 257 events blocks a subscriber from revision 0 |
| `Limits.FilteredPagesLose` | internal/api/topology.go:437-457 | over the journal of a reachable store, with pages of one, a matching third event behind a dropped second one is never listed |
| `Limits.ListingRepeats` | internal/api/topology.go:429-436 | over the journal of a reachable store, with pages of one, the listing from revision 2^64-1 leads back to itself |
| `Limits.EditsOverlap` | internal/api/collector.go:186-206 | in a reachable store two requests with one expected version, one enabling and one disabling a peer, both commit, and enabling it is lost |
| `Limits.MergeDropsTlv` | internal/topology/reconcile.go:171-179 | registry "a/5" with tag 6 hides registry "a" with tag 5, and one enterprise number hides another |

## Left out

- Text forms: JSON, base64 and YAML are lossless codecs; NLRI and TLV decoding, SHA-256 ids and the printed form of errors are not modelled.
- The database: Pebble is an ordered map with atomic batches and range deletion; a failed commit or deletion changes nothing; write-ahead logging, compaction of files and disk usage are given by parameters or absent.
- The five current-state maps are one map keyed by kind and id.
- The priority queue is a bag from which a least item is removed; the array layout of the heap is not modelled.
- Sorting is one fixed stable sort; where two links share an id Go's sort may order them otherwise, and uniqueness is claimed only for distinct ids.
- Bandwidth is a `real`, so NaN and infinities are absent; the hop index does not wrap at 2^32.
- The revision counter: runs stop before the commit that would wrap it at 2^64.
- Mutations and advertisements carry a value that belongs to their key (same kind and id); the code does not check this.
- A nil meta and an empty one are the same; so are a nil and an absent entity value.
- Conflicts name the top source as the selected peer even when a lower source filled the value; the model follows the code in this and claims nothing more about it.
- In-place writes through pointers in mergeString, mergeUint64 and setRevision are returned values; the one visible effect, that a reply carries the version just written, is modelled.
- Concurrency: every method of the store is one step, except that mutations and retention may run between the reads of a point-in-time read. Retention between WatchTopology's expiry check and its subscription is not modelled. The reads of one peer operation, of the domain it names and of the peer itself, are one read; other writes may come between them and its write.
- Subscription channels live in the store's model, with the events their readers have taken; a restart drops them.
- Stores.Store.At: nothing commits between its reads; the interleaved case is stated of History.SnapshotAt.
- Stores.Store.Apply: stated while no subscriber is blocked under the lock, since it would wait for ever; of the commit that wraps the counter it says only that the revision becomes zero.
- Reconcile.Reconciler.Apply: of the commit that wraps the counter it says only which advertisement was recorded.
- Peering.CollectorService.WritePlan: of the commit that wraps the counter it says only what is answered.
- Peering.CollectorService.Perform: stated below revision 2^64-1 and with nothing committing between its read and its write; the overlapping case is stated of its two halves.
- Peering.CollectorService.DeletePeer: as for Perform.
- Changes.FollowChanges: from 2^64-1 with a full first page the client goes round for ever, so that case is a lemma of its own.
- Peering.CollectorService.ImportPeerConfig: does not model the sorted, redacted list of peers it returns.
- validatePeer's tests of addresses, AS numbers and session options are one given predicate; only the required ids and the existing domain are modelled.
- The session manager is an outcome flag for each call.
- Filters: nodeMatch, linkMatch and prefixMatch are given predicates. resolveNodeID is absent: both ends of a path request are given as node ids.
- GetSummary, GetNode, GetLink, GetPrefix, GetNeighbors, Resolve, GetPeer, ExportPeerConfig and ResetPeer: plain scans and lookups.
- MarkPeerStale, which changes sources without writing to the store.
- The stability of first_seen: each reconciled write stamps it anew.
- BGP sessions, TLS, roles, HTTP routing, the command line, configuration loading, metrics and the web interface.
