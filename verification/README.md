# A verified model of the search collector

The search collector watches the resources of a Kubernetes cluster and keeps a copy of them, as a graph, in a
remote aggregator. This project models the parts where that can go wrong and proves what they promise. It has
three cores.

**Replication** (`pkg/reconciler`, `pkg/send`). A `Reconciler` folds node events that may arrive out of order into
its current nodes. Against the last report it keeps what is pending, and a least-recently-used cache of deleted
nodes. It reports either a delta or the complete state. A `Sender` delivers the reports and recovers from failures.
The main result, `SyncProtocol.RemoteMatchesLastReport`, holds for every run: under any interleaving of events with
sync cycles, and any pattern of success, busy replies and failures, whenever no cycle is in flight and the sender
believes that the remote state is known, the aggregator holds exactly the nodes of the last report and joins exactly
its pairs, unless an answer that reports errors for single items was accepted. `SenderModule.Sender.Sync`, written as
the loops and branches that run it, is proved to be a path of that protocol, and its contract says the same of one
cycle. Where the promise has limits, they are stated as exact conditions: `SyncProtocol.AcceptedAnswerExactIff`,
`Replication.DeltaExactIff`, `Replication.EdgeDetailsExactIff`, `ReconcilerRuns.EventShownIff`,
`Rebuilds.RebuildsAgreeIff`. What the sender makes of answers about partly applied payloads is
`PartialDelivery.AcceptedIffTrueSizes`: the size checks see through failed items exactly as long as no edge is left at a
node whose deletion failed.

**Graph construction** (`pkg/transforms/common.go`). The four-level index with its lookups is proved equal to a
linear scan. The owner walk, over owner references that may form cycles, goes exactly to the longest stored,
repeat-free stretch of the owner chain. The mutually recursive builders of edges by name are proved to terminate on
every store, and every edge joins two different nodes. The edges to the wanted kind are exactly those from the node and its
chain of owners to what the listed names point at, and all edges are exactly those and what they bring along over
subscriptions, at every depth.

**Hot reload of the collection config** (`pkg/transforms/configurableCollection.go`,
`pkg/transforms/collectorConfigReload.go`, `pkg/informer`). Merging is characterised for every list of rules, the
config diff is exact, and no wakeup is lost between any number of requesting threads and the main loop. The end-to-end
result is `InformerRegistry.ChangedConfigIsDispatched` with `InformerRegistry.ServePoke`: if a reload changes what
extraction does for a resource, then in every interleaving its keys are drained together, and the turn of the main loop
that drains them leaves a request with that resource's informer, if it is found under its name and still wanted by then.

## How it is modelled

- Objects whose methods update them are classes (`Reconciler`, `Sender`, `Registry`, `Informer`, `TransformConfig`,
  `ResyncRequests`, `Handler`). Each method's contract ties the new state to a function or relation of the old one,
  and the theorems are about those.
- Go visits maps in no particular order. Such loops pick any remaining element here, and reports are specified up to
  order (`Enumerates`). An index is specified by a relation, because two different nodes with the same group, kind,
  namespace and name make it depend on the visiting order: `NodeIndex.IndexDeterminedIffNoTwins`.
- Methods that hold the mutex are atomic steps; events may arrive between any two of them. Threads that request a
  resync are split at the unlock, the main loop at the receive and at the drain.
- The aggregator is a pair of maps. A complete payload empties it first; deleting a node removes the edges at it; a
  reply without errors for single items means that the payload was applied; a busy reply means that it was applied in
  full or not at all; any other failure may leave anything behind.
- Edge builders are functions of the node store. The replication results assume that a builder names only stored
  nodes wherever its own node is stored; `OwnerEdges.OwnerEdgesNameStored` shows it for the owner edges.
- Property lists are values in the merge, and slices over arrays with room to spare in `ConfigSlices`, where it is
  shown that merging writes to no array that anybody else reads.
- Clocks, jitter, replies, what discovery and the API server answer, and the order of events are parameters.

Where the code differs from what its comments or tests suggest, the code is followed:

- An update equal to the last *reported* state is dropped even while a different change is pending, so a node that is
  deleted and comes back unchanged before the next report stays missing (`ReconcilerRuns.RevertIsLost`).
- A comment in the rule merge says that annotations can be collected for a whole group by a wildcard. The flag is
  stored, but nothing reads it (`ConfigReload.WildcardAnnotationsAreNotRead`).
- The size checks allow for failed items but not for the edges that stay with a node that could not be deleted, so the
  truth about such a delta is refused and a complete payload follows (`PartialDelivery.TruthAboutDeltaAcceptedIff`).
- The edge to an owner's release carries the kind of the owner, not of the release.
- The older allow and deny lists see the core group under its version ("v1"), the exclude rules under "".

## Model

| member | source | states |
|---|---|---|
| NodeIndex.NodesIndexMap | pkg/reconciler/reconciler.go:47-82 | Whatever the visiting order, every slot holds a node carrying the slot's key, every key carried by a node has a slot, and no level holds an empty map |
| NodeIndex.IndexDeterminedIffNoTwins | pkg/reconciler/reconciler.go:47-82 | The index is settled by the nodes exactly when no two different nodes share group, kind, namespace and name |
| NodeIndex.GroupLookupIsScan | pkg/transforms/common.go:47-58 | A group lookup succeeds exactly when some node with kind and name carries the key, and returns such a node |
| NodeIndex.GrouplessLookupIsScan | pkg/transforms/common.go:60-78 | Across groups, the answer is a node of the lexically least group in which any node carries kind, namespace and name |
| NodeIndex.LookupByKindNamespaceName | pkg/transforms/common.go:63-78 | The loop over the sorted groups returns the node of the least group that has one |
| NodeIndex.NodesByKind | pkg/transforms/common.go:82-109 | In every slot the table agrees with the lookup across groups: on a collision the least group wins |
| Text.SortStrings | pkg/transforms/common.go:65-69 | The groups visited are sorted and are a permutation of the group names |
| Text.LexLeIff | pkg/transforms/common.go:65-69 | The order in which groups are visited is that of the first character that differs, prefixes first |
| TombstoneCache.GetKeeps | pkg/reconciler/reconciler.go:326 | Looking a tombstone up loses none, moves it to the front, and puts at most that one in front of any other |
| TombstoneCache.AddKeeps | pkg/reconciler/reconciler.go:345 | Adding one cannot drop another while fewer than 500 others have been used since that one was |
| EdgeTables.CountEdges | pkg/reconciler/reconciler.go:293-298 | Summing the rows counts the distinct (source, dest) pairs |
| EdgeTables.PutAllPairs | pkg/reconciler/reconciler.go:285-290 | The table joins a pair exactly when an edge with those ends was filed, and then holds one of the filed edges with those ends |
| EdgeTables.LastFiledStays | pkg/reconciler/reconciler.go:285-290 | Of several edges filed with the same ends, the last one stays |
| ReconcilerState.ReconcileKeepsConsistent | pkg/reconciler/reconciler.go:312-421 | Every event keeps: a pending create is absent from the last report and present now with that node, an update is in both, a delete only in the last report, no entry means no difference; builders and current nodes have the same UIDs; the edge total counts the reported pairs |
| ReconcilerState.ReportsKeepConsistent | pkg/reconciler/reconciler.go:122-243 | Both reports keep that too, and leave nothing pending and the snapshot equal to the present |
| ReconcilerState.InitialConsistent | pkg/reconciler/reconciler.go:102-118 | A new reconciler is consistent |
| EventOutcomes.SupersededPassedOver | pkg/reconciler/reconciler.go:324-338 | An event older than what is pending for its node, or no newer than its tombstone, changes nothing |
| EventOutcomes.DeleteIsTaken | pkg/reconciler/reconciler.go:342-352 | Any other delete removes the node and its builder, leaves a tombstone of its time in front, and is pending exactly if the node was reported |
| EventOutcomes.NewPropertiesAreTakenUp | pkg/reconciler/reconciler.go:353-420 | An upsert of anything but a release that was not reported, or was reported with other properties, becomes the current node with its builder, pending as an update if the node was reported and as a create otherwise |
| EventOutcomes.SamePropertiesTakenUpIff | pkg/reconciler/reconciler.go:362-390 | With the properties last reported, it does so exactly for applications, subscriptions, policy bindings with other parameters, and policies or gatekeeper constraints with other related objects; otherwise nothing changes |
| EventOutcomes.ReleaseTakenUpIff | pkg/reconciler/reconciler.go:392-416 | A release becomes current exactly when neither the last report nor the present holds a higher revision of it |
| EventOutcomes.PassedOverIsHeld | pkg/reconciler/reconciler.go:362-390 | An upsert newer than what is pending that is passed over has the properties that a mirroring aggregator already holds |
| ReconcilerState.RebuildAgrees | pkg/reconciler/reconciler.go:248-301 | Without twins in the index, every rebuild from the same nodes and builders joins the same pairs whatever the orders |
| Rebuilds.RebuildsAgreeIff | pkg/reconciler/reconciler.go:248-301 | And twins are the exact condition: for all builders every two rebuilds join the same pairs if and only if no two different nodes share group, kind, namespace and name |
| Rebuilds.TwinsRebuildDiffers | pkg/reconciler/reconciler.go:248-301 | From any nodes with twins, builders and two rebuilds whose pairs differ |
| ReconcilerState.BuiltPairsStored | pkg/reconciler/reconciler.go:280-291 | If each builder names stored nodes wherever its own node is stored, every pair built joins stored nodes |
| ReconcilerModule.SliceDiff | pkg/transforms/common.go:708-722 | Exactly the elements of the big slice that are not in the small one, in their order and as often as they come |
| ReconcilerModule.ApplicationUIDs | pkg/reconciler/reconciler.go:269-275 | Lists each application of the table once |
| ReconcilerModule.BuilderOrder | pkg/reconciler/reconciler.go:260-280 | Every builder comes exactly once, and those of the listed applications before all others |
| ReconcilerState.ApplicationsRunFirst | pkg/reconciler/reconciler.go:257-280 | In every rebuild, an application that shares namespace and name with no other comes before all nodes of other kinds |
| ReconcilerState.LastGivenStays | pkg/reconciler/reconciler.go:280-290 | Of the edges given with the same ends, the table keeps that of the node whose builders run last, and of one node the last, the common edges coming after its own |
| ReconcilerModule.BuildEdges | pkg/reconciler/reconciler.go:248-291 | The table is what running each builder once, applications first, over an index of the nodes gives: a pair is in it exactly when the own builder of some node, or the common one run for it, gives an edge with these ends, and one of these edges is filed |
| ReconcilerModule.FillNodes | pkg/reconciler/reconciler.go:137-147 | The three lists hold, once each, exactly the pending creates, updates and deletes |
| ReconcilerModule.MatchEdges | pkg/reconciler/reconciler.go:158-167 | The added edges are exactly the new ones whose pair was not reported; what is left of the old table is what the new one does not join |
| ReconcilerModule.LeftoverEdges | pkg/reconciler/reconciler.go:170-197 | Of the leftover edges exactly those that touch no deleted node are reported as deleted |
| ReconcilerModule.CompareEdges | pkg/reconciler/reconciler.go:152-197 | Together: additions are the pairs only in the new table, deletions the pairs only in the old one that touch no deleted node |
| ReconcilerModule.Reconciler.constructor | pkg/reconciler/reconciler.go:102-118 | Starts with nothing known, nothing pending, and no tombstones |
| ReconcilerModule.Reconciler.ReconcileNode | pkg/reconciler/reconciler.go:312-421 | One event, through all branches, moves the state as the specification of one event says, and reports how it was judged; the members of EventOutcomes write out what that means for each kind of event |
| ReconcilerModule.Reconciler.AllEdges | pkg/reconciler/reconciler.go:248-301 | Rebuilds the table from the current nodes, with exactly the pairs that their own builders and the common one give, and sets the total to the number of distinct pairs |
| ReconcilerModule.Reconciler.Diff | pkg/reconciler/reconciler.go:122-208 | Returns a delta as specified and moves the snapshot up; with nothing pending it changes nothing and returns empty lists with the totals |
| ReconcilerModule.Reconciler.Complete | pkg/reconciler/reconciler.go:211-243 | Returns every node and every edge with their totals and moves the snapshot up |
| ReconcilerModule.Reconciler.ResetDiffs | pkg/reconciler/reconciler.go:426-435 | Nothing is pending and the snapshot equals the current nodes |
| ReconcilerModule.ConsistentIsReportable | pkg/reconciler/reconciler.go:122-243 | In every consistent state both reports can be taken |
| ReconcilerRuns.DeletionOutlastsReports | pkg/reconciler/reconciler.go:325-345 | After a deletion at time T, any run of events and reports in which fewer than 500 other nodes had events leaves every event up to T without effect |
| ReconcilerRuns.DeletedStaysDeleted | pkg/reconciler/reconciler.go:325-345 | And if no later event of that node comes, it is not among the current nodes at the end of the run |
| ReconcilerRuns.TimesNeverDecrease | pkg/reconciler/reconciler.go:328-338 | Between two reports, while its tombstone is kept, a node's state is taken from events of times that never decrease |
| ReconcilerRuns.RevisionsNeverDecrease | pkg/reconciler/reconciler.go:396-413 | Across any events and reports, the revision held for a release never decreases while the release stays known |
| ReconcilerRuns.ShortcutLosesNothing | pkg/reconciler/reconciler.go:129-135 | When nothing is pending, whatever events came since the last report, the full path would find the same nodes and, unless two different nodes share group, kind, namespace and name, the same pairs and totals |
| ReconcilerRuns.EventShownIff | pkg/reconciler/reconciler.go:312-421 | After any event, release or not, the state shows it exactly when nothing newer is remembered of its node and, for an upsert, it is not redundant to the last snapshot and no higher or unreadable revision is held; or when it was shown already |
| ReconcilerRuns.LatestEventShownIff | pkg/reconciler/reconciler.go:312-421 | Over whole runs, with events and reports before and after: the last event of a node that lands is what the state shows at the end, and an event after which none lands is shown exactly under that condition |
| ReconcilerRuns.LatestTimeWins | pkg/reconciler/reconciler.go:325-345 | However the events of a node arrive between two reports, one later than all others, and than what is remembered of the node, is what the state shows in the end, if it is a deletion or an upsert of no release that is not redundant to the last snapshot, and the tombstone of the node is kept meanwhile |
| ReconcilerRuns.RevertIsLost | pkg/reconciler/reconciler.go:342-390 | A reported node that is deleted and comes back as last reported stays missing, with its deletion pending |
| ReconcilerRuns.RevertIsLostExample | pkg/reconciler/reconciler.go:342-390 | From the very beginning: any node other than an application or subscription that is created, reported, deleted and created again as it was is missing |
| Aggregator.OrderAndRepetitionDoNotMatter | pkg/send/sender.go:43-52 | A payload with disjoint lists whose additions touch no deleted node has the same effect in every order of its parts and however often they are repeated |
| Aggregator.ApplyTwice | pkg/send/sender.go:162-175 | Delivering such a payload, or a complete one, twice is the same as delivering it once, so a busy retry is harmless |
| Replication.DeltaExactIff | pkg/reconciler/reconciler.go:122-208 | For any builders: a delta makes a copy of the last report into a copy of the new one exactly when no pair kept by both reports ends in a deleted node |
| Replication.EdgeDetailsExactIff | pkg/reconciler/reconciler.go:156-167 | The copied edges agree in type and kinds exactly when no kept pair changed them, since edges are compared by their ends only |
| Replication.DeltaExact | pkg/reconciler/reconciler.go:122-208 | With builders that name stored nodes the delta is exact, its lists are disjoint, and its additions touch no deleted node |
| Replication.DeltaTotals | pkg/send/sender.go:245-256 | The totals announced with a delta are the sizes of the copy it produces |
| Replication.EmptyIffNothingPending | pkg/send/sender.go:54-57 | A delta payload is empty exactly when nothing was pending, so a skipped send skips no change |
| Replication.CompleteExact | pkg/send/sender.go:146-158 | A complete payload makes an exact copy, edge details included, out of whatever was there |
| Replication.CompleteTotals | pkg/send/sender.go:245-256 | The totals announced with a complete payload are the sizes of the copy it produces |
| SyncProtocol.NextKeepsInv | pkg/send/sender.go:162-309 | Every step, unless it accepts an answer that reports item errors, keeps: when idle with a known remote state the copy mirrors the last report; while sending, delivering the payload makes it so and delivering it again changes nothing |
| SyncProtocol.RemoteMatchesLastReport | pkg/send/sender.go:264-309 | In every run in which no accepted answer reports item errors, whenever no cycle is in flight and lastSentTime is not -1, the aggregator holds exactly the nodes of the last report and joins exactly its pairs |
| SyncProtocol.SkipsIff | pkg/send/sender.go:279-287 | With the remote state known, a cycle sends nothing exactly when nothing is pending and the last exchange is less than a heartbeat ago, and then changes nothing |
| SyncProtocol.CleanAnswersAreAccepted | pkg/send/sender.go:245-256 | An answer without item errors always passes the size checks, so they never force a needless resend |
| SyncProtocol.CopyShowsLastReport | pkg/send/sender.go:264-309 | Whatever happened before and after the last payload was put together, between cycles with a known remote state the aggregator holds the nodes that were current at that moment |
| SyncProtocol.OneAnswerCatchesUp | pkg/send/sender.go:264-309 | Along any path, with events, busy replies, failures and rebuilds, one answer without item errors is accepted, ends the cycle and leaves the aggregator with the nodes that were current when the last payload was put together |
| SyncProtocol.AcceptedAnswerExactIff | pkg/send/sender.go:245-260 | The exact condition: an accepted answer means an exact copy, for every copy the aggregator may be left with, if and only if it reports no item errors |
| SyncProtocol.ItemErrorsGoUnnoticed | pkg/send/sender.go:245-260 | Accepted answers with item errors do occur: whatever copy the aggregator is left with, one gives its true sizes |
| PartialDelivery.SizesOfPart | pkg/send/sender.go:245-256 | Whatever items of a suitable payload fail, the copy is smaller by the failed adds and larger by the failed deletes, and has besides the edges left at nodes whose deletion failed |
| PartialDelivery.AcceptedIffTrueSizes | pkg/send/sender.go:245-256 | So an answer that lists the failed items is accepted exactly when it gives the true totals of the partly updated copy, but for those edges, and otherwise a complete payload follows or the remote state is unknown |
| PartialDelivery.TruthAboutDeltaAcceptedIff | pkg/send/sender.go:279-306 | For every delta, whatever of it fails and whatever arrives in between: if no edge is left at a node that should be gone, exactly the truth is accepted; if one is left, the truth is refused |
| PartialDelivery.TruthAboutCompleteAcceptedIff | pkg/send/sender.go:264-276 | For a complete payload exactly the truth is accepted, whatever fails |
| PartialDelivery.DeltaSuits | pkg/reconciler/reconciler.go:122-208 | A delta adds only what a copy of the last report does not have, updates and deletes only what it has, and deletes no edge at a deleted node |
| SenderModule.Sender.constructor | pkg/send/sender.go:105-123 | A new sender does not know the remote state |
| SenderModule.Sender.Receive | pkg/reconciler/reconciler.go:304-309 | An event that arrives between two steps changes the reconciler only, as one event does |
| SenderModule.Sender.SendWithRetry | pkg/send/sender.go:162-260 | Resends the same payload while the aggregator is busy; succeeds exactly on an answer whose totals differ from those announced by the failed deletes less the failed adds, of resources and of edges; every way it goes is a path of the protocol that leaves out no event and no reply |
| SenderModule.Sender.Finish | pkg/send/sender.go:268-308 | Success records the time, failure of a complete payload sets -1, failure of a delta makes a complete payload due |
| SenderModule.Sender.SendCompletePayload | pkg/send/sender.go:146-158 | Taking and sending the complete state is a path of the protocol and ends idle, with -1 exactly on failure |
| SenderModule.Sender.SendDeltaPayload | pkg/send/sender.go:279-288 | Taking the changes and sending or skipping them is a path of the protocol; on failure a complete payload is due |
| SenderModule.Sender.Sync | pkg/send/sender.go:264-309 | A whole cycle is a path of the protocol that starts one and takes in every event and reply in the order they come; and from a state that keeps the invariant, when no accepted answer reports item errors, it leaves an exact copy of the last report on success and lastSentTime -1 on error |
| SenderModule.CleanScriptCleanSteps | pkg/send/sender.go:245-260 | When no answer that comes reports item errors, no accepted one does |
| SenderModule.SyncedOrKnownNotToBe | pkg/send/sender.go:264-309 | Every path between cycles in which no accepted answer reports item errors ends with an exact copy of the last report or lastSentTime -1 |
| Backoff.RunSendLoop | pkg/send/sender.go:313-348 | For every sequence of outcomes and of jitters and every cap: the factor is 1 after a success and moves, and each wait is taken, as the comparison and the product come out in 64 bits; when the cap fits as a duration, the factor rises only while the interval is below the cap, is always 1 or still below the cap one step earlier, and each wait lies, without wrapping, between min(2000 ms, cap) and the cap |
| Backoff.CapFitsIff | pkg/send/sender.go:364-367 | The exact condition on the cap: every wait, for every factor that the loop can reach and every jitter, is the one meant if and only if the cap fits 64 bits in nanoseconds |
| Backoff.PowersMultiply | pkg/send/sender.go:365 | The interval doubles with every failure |
| Backoff.WrapIff | pkg/send/sender.go:365-366 | Products and conversions keep the one number of the signed 64-bit range that differs by a multiple of 2^64 |
| Backoff.HugeCapStopsBackoff | pkg/send/sender.go:333-366 | With a cap of 2^61 ms, which does not fit, a failure never raises the factor although the interval is below the cap |
| OwnerEdges.EdgesByOwner | pkg/transforms/common.go:381-425 | Terminates on every owner graph; every edge leaves the node and goes to a different, stored node, release edges included |
| OwnerEdges.OwnerEdgesFollowChain | pkg/transforms/common.go:381-425 | The edges go exactly, and in order, to the longest stretch of the owner chain that is stored, repeat-free and free of the source, each followed by the edge to its release |
| OwnerEdges.OwnerEdgesIff | pkg/transforms/common.go:381-425 | Written out: the edges are exactly those of the given type to each owner on the chain and those of type "ownedBy" to its stored release, each with the owner's kind |
| OwnerEdges.LongestChainIff | pkg/transforms/common.go:381-425 | And the chain is the one that starts where it is told, goes on to what each node's metadata names as its owner, and ends only where that is empty, not stored, the source, or on the chain already |
| OwnerEdges.OwnerChainExists | pkg/transforms/common.go:381-425 | Every start has such a longest stretch |
| OwnerEdges.LongestChainUnique | pkg/transforms/common.go:381-425 | And only one |
| OwnerEdges.OwnerPathNodes | pkg/transforms/common.go:381-405 | Its nodes are stored, all different, and different from the source |
| OwnerEdges.OwnerEdgesNameStored | pkg/transforms/common.go:381-425 | This builder meets what the replication results ask of builders |
| Text.SplitIsTheOne | pkg/transforms/common.go:487 | Splitting gives the one and only list of separator-free parts that joins back to the string |
| DestinationEdges.LookupNode | pkg/transforms/common.go:429-466 | Both ways of looking a name up answer as specified; what they find is stored and of the wanted kind |
| DestinationEdges.FoundIsStored | pkg/transforms/common.go:47-78 | And the specification means: a stored node whose properties give this kind, namespace and name, of the group looked in or else the least group that has one, whenever there is one |
| DestinationEdges.TargetIff | pkg/transforms/common.go:486-501 | A channel, deployable, subscription or application listed as "a/b" points at name b in namespace a, listed without slash at that name in the namespace at hand, with more slashes nowhere; other kinds take the name whole |
| DestinationEdges.EdgesByDestinationName | pkg/transforms/common.go:468-572 | Terminates on every store; every edge joins two different nodes, each under its own kind; when bare names do not share the list with qualified ones, the edges to the wanted kind are exactly those from each source to each node that a listed name points at, which for the node's own edges is also written out name by name; and when no list that comes into it is mixed, all edges are exactly those and, at every depth, the ones they bring along over subscriptions |
| DestinationEdges.EdgesAtLevel | pkg/transforms/common.go:484-546 | The same for one source, although a qualified name leaves its namespace behind for the names visited after it |
| DestinationEdges.EdgesToPlace | pkg/transforms/common.go:502-539 | One place gives exactly the edge to the node found there, unless that is the source itself, and what it brings along |
| DestinationEdges.SourcesAreOwnerChain | pkg/transforms/common.go:548-569 | The sources are the node's longest repeat-free chain of stored owners, ended early by a deployable |
| DestinationEdges.NestedEdges | pkg/transforms/common.go:513-537 | An edge to a subscription, except from an application, brings what leads to its applications and channels; an edge from a subscription to a deployable, placement rule or channel brings what leads from there to the subscription's applications; no other edge brings any |
| DestinationEdges.EdgesToApplication | pkg/transforms/common.go:668-689 | The edges are exactly those to the applications and, unless told otherwise, to the channels that the subscription lists, and what these bring along, when no such list is mixed; building them ends although it starts with nothing seen |
| NamedEdges.SourcesWalkOwners | pkg/transforms/common.go:548-569 | The edges start at the node and then at owner after owner with type "uses" and the owner's kind, until a deployable, an owner that is missing or not stored, or one that came before |
| NamedEdges.NamedEdgesIff | pkg/transforms/common.go:468-572 | The edges to the wanted kind are exactly those from such a start to the node found where some listed name points |
| NamedEdges.QualifiedName | pkg/transforms/common.go:490-493 | For the name "a/b" of a kind listed with namespaces, the node has the edge to what the lookup finds under namespace a and name b, and no other to that kind |
| NamedEdges.BareName | pkg/transforms/common.go:494-496 | For a bare name, or any name of another kind, it is looked up whole in the node's own namespace |
| NamedEdges.LongName | pkg/transforms/common.go:497-501 | For a name of three or more parts there is no such edge |
| NamedEdges.SubscriptionBrings | pkg/transforms/common.go:523-525 | Whoever but an application gets an edge to a subscription also gets the edges to the applications and channels that the subscription lists |
| NamedEdges.SubscriptionContains | pkg/transforms/common.go:526-538 | When a subscription gets an edge to a channel, deployable or placement rule, that one gets edges of type "contains" to the applications that the subscription lists |
| ConfigKeys.KeySplitsBackIff | pkg/informer/collectorConfigReload.go:178-186 | Splitting a key gives back the kind and group it was built from exactly when the kind has no dot |
| ConfigKeys.KeyRebuildsIff | pkg/informer/collectorConfigReload.go:178-186 | Rebuilding a split key gives it back unless its first dot is its last character |
| ConfigKeys.KeysTellApart | pkg/transforms/configurableCollection.go:264-267 | Dot-free kinds never share a key across groups |
| ConfigMerge.IsHubOnlyField | pkg/transforms/configurableCollection.go:93-105 | Holds exactly for the paths that are a hub-only root or continue one with an index or a child |
| ConfigMerge.BracesDoNotMatter | pkg/transforms/configurableCollection.go:309-314 | A path without braces, with both, or with either one alone means the same path |
| ConfigMerge.BracingTwice | pkg/transforms/configurableCollection.go:309-322 | Normalising twice is normalising once, and does not change whether a field is hub-only |
| ConfigMerge.AddFields | pkg/transforms/configurableCollection.go:277-326 | The field loop adds what the specification of adding fields says and reports each field it skips; the members of ConfigFields write out which and how |
| ConfigMerge.FieldsAddedOrReported | pkg/transforms/configurableCollection.go:277-326 | Every field of a rule is either added or reported, never both |
| ConfigMerge.MergeCollectConditions | pkg/transforms/configurableCollection.go:483-504 | Exactly the entries covered by a listed kind in a listed group get the flag, being made if absent; all else is as before |
| ConfigMerge.MergeCollectAnnotations | pkg/transforms/configurableCollection.go:510-531 | The same for annotations |
| ConfigMerge.MergeCollectPrinterColumns | pkg/transforms/configurableCollection.go:537-562 | Exactly the covered entries get the threshold if it is higher than theirs |
| ConfigMerge.ApplyRule | pkg/transforms/configurableCollection.go:170-331 | One rule does to every entry what the specification of one rule says, and its warnings say what it could not add |
| ConfigMerge.LoadAndMerge | pkg/transforms/configurableCollection.go:116-347 | The rules are applied to the defaults in order; without a readable resource, or without rules, the defaults stand and nothing is excluded |
| ConfigMerge.FlagsAndThreshold | pkg/transforms/configurableCollection.go:169-215 | For every rule list: a flag is on exactly when it was by default or an including rule covers the key with it, and the threshold is the maximum of the default and those of the covering rules |
| ConfigMerge.OrderOfRulesDoesNotMatter | pkg/transforms/configurableCollection.go:533-562 | Rule lists with the same members, in any order, give the same flags and thresholds |
| ConfigMerge.PropertiesOnlyGrow | pkg/transforms/configurableCollection.go:269-329 | For every rule list: the default properties stay in front, each added one comes from a rule that names the entry and clashes with no earlier name, no complete field whose name is free is left out, and the edges stay as they are |
| ConfigMerge.EntriesAppearIff | pkg/transforms/configurableCollection.go:169-331 | Entries never disappear, and one appears exactly when some rule asks for something under its key |
| ConfigFields.FieldsKeyIff | pkg/transforms/configurableCollection.go:221-267 | A rule adds fields exactly to the entry of its one kind other than "*" and its one group |
| ConfigFields.PropertyIff | pkg/transforms/configurableCollection.go:288-322 | A field becomes the property named by its name and, behind a dot, the suffix; its path in braces once, whether it was given with both, one or none; its CRD type translated; and hub-only exactly for the users of a group |
| ConfigFields.FieldsMerged | pkg/transforms/configurableCollection.go:269-329 | For every rule list: after the default properties an entry has just such properties, asked for by rules that add to it, no name twice, and no name that was asked for is missing |
| ConfigFields.FirstToAskIsServed | pkg/transforms/configurableCollection.go:277-326 | The first field to ask for a name that the defaults leave free becomes the one property of that name |
| ConfigFields.FieldWarningsIff | pkg/transforms/configurableCollection.go:279-307 | Reported are exactly the fields without name or path, and those whose name a property or an earlier field has |
| ConfigFields.RuleWarningsIff | pkg/transforms/configurableCollection.go:219-262 | A rule with fields that adds them to no entry gives one message saying why |
| ConfigFields.FlagsMerged | pkg/transforms/configurableCollection.go:169-215 | An entry collects conditions, or annotations, exactly if its default or some including rule with its key says so |
| ConfigFields.ThresholdMerged | pkg/transforms/configurableCollection.go:533-562 | Its threshold is the largest that its default and those rules give |
| ConfigSlices.Append | pkg/transforms/configurableCollection.go:324 | Appending to a slice with room writes into its array, and otherwise makes a new one; the items in front stay |
| ConfigSlices.AppendFields | pkg/transforms/configurableCollection.go:277-326 | The field loop on a slice writes to the slice's own array or to new ones only, and adds what the specification says |
| ConfigSlices.CopyAll | pkg/transforms/configurableCollection.go:586-591 | The copied property lists have the same items, in new arrays that no two entries share |
| ConfigSlices.MergeFields | pkg/transforms/configurableCollection.go:114-331 | Merging writes to no array that existed before, whatever room it has to spare: the defaults and the config in force stay as they are; the new config shares no arrays with them or between entries |
| ConfigSlices.PropertiesAfterRules | pkg/transforms/configurableCollection.go:269-329 | The lists merged on slices are those of the whole merge |
| ConfigMerge.MatchesExcludeRule | pkg/transforms/configurableCollection.go:449-458 | Matches exactly when some listed group and some listed kind do, with "*" matching all |
| ConfigMerge.IsResourceExcluded | pkg/transforms/configurableCollection.go:467-477 | Excluded exactly when the last matching rule excludes |
| ConfigMerge.LastRuleDecides | pkg/transforms/configurableCollection.go:429-477 | In terms of the resource itself: the last collection rule that matches decides, those without groups or kinds never counting |
| ConfigFields.ExcludedIff | pkg/transforms/configurableCollection.go:429-477 | Written out: a resource is excluded exactly when the last rule that lists its group and kind, or "*" for either, excludes |
| ConfigReload.DiffConfigs | pkg/transforms/collectorConfigReload.go:83-108 | The three loops list, once each, exactly the keys whose entries were added, removed or changed |
| ConfigReload.TransformConfig.constructor | pkg/transforms/configurableCollection.go:57-66 | Switched off, the config is the defaults and nothing is excluded |
| ConfigReload.TransformConfig.Load | pkg/transforms/configurableCollection.go:333-337 | The config in force is what the rules give, with nothing of an earlier load left |
| ConfigReload.TransformConfig.ReloadAndDiff | pkg/transforms/collectorConfigReload.go:25-54 | Returns nothing exactly when neither config nor exclude rules changed, and otherwise exactly what did; reloading the same rules changes nothing |
| ConfigReload.PlanChangesOnlyWithItsKeys | pkg/transforms/common.go:769-815 | What is extracted from a resource, edges to configured names (lines 264-277) included, changes only if the entry of its kind or of its group's wildcard does |
| ConfigReload.WildcardAnnotationsAreNotRead | pkg/transforms/common.go:113-131 | Collecting annotations for a whole group by a wildcard has no effect on any kind |
| Extraction.FlagsOfPlan | pkg/transforms/common.go:113-131 | From the rules to extraction: annotations are collected if all are, for three groups, or if the kind's own entry asks for them, and conditions (lines 784-789) also if the entry of its whole group does |
| Extraction.PlanOfOwnEntry | pkg/transforms/common.go:769-799 | A kind with an entry of its own is extracted by the entry's properties, followed by the printer columns exactly if a threshold was asked for, by the largest threshold, and by the default edges |
| Extraction.PlanWithoutEntry | pkg/transforms/common.go:801-820 | One without gets the printer columns exactly if they are wanted for all, for gatekeeper constraints, or if its whole group has a threshold, which then holds; constraints without one get priority 0 |
| Extraction.OwnEntryIff | pkg/transforms/configurableCollection.go:169-331 | A kind has an entry exactly by default or if some including rule asks for a flag, a threshold or fields under its key |
| Extraction.FieldIsExtracted | pkg/transforms/common.go:769-799 | The first field to ask for a free name of a kind is among the properties extracted from it |
| ConfigReloadHandler.Handler.HandleReloadResult | pkg/informer/collectorConfigReload.go:36-47 | A changed rule list requests a full sync, changed entries request their keys, and either pokes the main loop |
| ConfigReloadHandler.Handler.OnAddOrUpdate | pkg/informer/collectorConfigReload.go:49-75 | Another name or an unchanged generation does nothing; otherwise exactly what the reload changed is added to the requests |
| ConfigReloadHandler.Handler.OnDelete | pkg/informer/collectorConfigReload.go:77-84 | Forgets the generation and reloads, requesting exactly what changed |
| ResyncQueue.NoLostWakeup | pkg/informer/collectorConfigReload.go:86-143 | In every interleaving: while anything is pending, a poke is in the channel, a thread is about to send one, or the loop has taken one and not yet drained |
| ResyncQueue.QueuedIsDrainedOrPending | pkg/informer/collectorConfigReload.go:93-143 | At every point of every run, the keys queued so far are exactly those drained or still pending; likewise for the full sync |
| ResyncQueue.QueuedKeyComesOut | pkg/informer/collectorConfigReload.go:101-143 | A key queued at some point is in a later drain or still pending |
| ResyncQueue.QueuedKeysComeOutTogether | pkg/informer/collectorConfigReload.go:101-143 | In a run that has settled, the keys queued in one call are all in one later drain |
| ResyncQueue.QuietRunsEnd | pkg/informer/runInformers.go:606-635 | Once nothing more is queued, the remaining steps are bounded by a number known beforehand |
| ResyncQueue.SettledMeansStuck | pkg/informer/runInformers.go:606-635 | They end exactly when nobody is sending, no poke is in the channel and the loop is back at its select |
| ResyncQueue.EverythingIsDrained | pkg/informer/collectorConfigReload.go:101-143 | And then everything that was pending or queued has been drained |
| ResyncQueue.ResyncRequests.AddPending | pkg/informer/collectorConfigReload.go:104-109 | Under the lock, the loop over the keys is one queueing step |
| ResyncQueue.ResyncRequests.Poke | pkg/informer/collectorConfigReload.go:111-114 | Sending without blocking leaves one poke in the channel, whether or not one was there |
| ResyncQueue.ResyncRequests.TriggerResyncForConfigKeys | pkg/informer/collectorConfigReload.go:104-115 | Queues every key and pokes |
| ResyncQueue.ResyncRequests.TriggerSyncInformers | pkg/informer/collectorConfigReload.go:119-128 | Queues a full sync and pokes |
| ResyncQueue.ResyncRequests.TakePoke | pkg/informer/runInformers.go:620 | Empties the channel |
| ResyncQueue.ResyncRequests.DrainPendingResync | pkg/informer/collectorConfigReload.go:132-143 | Hands over exactly what was pending, each key once, and leaves nothing |
| SupportedResources.IsResourceAllowed | pkg/informer/supportedResources.go:44-86 | Allowed exactly when not one of the five never collected, not denied, and in the allow list if there is one |
| SupportedResources.FindSupportedResources | pkg/informer/supportedResources.go:128-200 | The informers to run are exactly those of the kept resources, and a name stands for the last kept resource that has it |
| SupportedResources.NamesFindResources | pkg/informer/supportedResources.go:184-194 | With dot-free kinds and one resource for each kind and group, every kept resource is found under its own name |
| SupportedResources.CollectedIff | pkg/informer/supportedResources.go:150-200 | In terms of the lists and the rules: a resource is kept exactly when it can be watched, is no subresource and none of the five never collected, no deny entry and, if there are any, some allow entry mentions it under the first part of its group and version, and the last rule that picks it does not exclude |
| InformerRegistry.Registry.SyncInformers | pkg/informer/runInformers.go:661-726 | With a list, exactly the listed resources have informers, those kept are the same instances, each dropped one is cancelled exactly once and no other; without one nothing starts or stops |
| InformerRegistry.Registry.StopUnwanted | pkg/informer/runInformers.go:694-704 | Exactly the registered resources that are not listed are cancelled and forgotten |
| InformerRegistry.Registry.StartMissing | pkg/informer/runInformers.go:707-723 | Exactly the listed resources without an informer get a new one |
| InformerRegistry.Registry.AtMostOneRunning | pkg/informer/runInformers.go:691-704 | At any time a resource has at most one informer that is not cancelled |
| InformerRegistry.Registry.DispatchResyncForKey | pkg/informer/collectorConfigReload.go:148-176 | An informer has a request afterwards exactly when it had one or the key asks for it, by name or as a wildcard of its group |
| InformerRegistry.Registry.HandleResync | pkg/informer/runInformers.go:620-635 | After a due sync, exactly the informers that some drained key asks for get a request |
| InformerRegistry.Informer.TriggerResync | pkg/informer/informer.go:32-40 | A request is in the channel afterwards |
| InformerRegistry.SpecificKeySignals | pkg/informer/collectorConfigReload.go:155-166 | The key of a dot-free kind reaches an informer exactly when the names map it to that informer's resource |
| InformerRegistry.WildcardKeySignals | pkg/informer/collectorConfigReload.go:168-175 | The wildcard of a group reaches exactly the informers of that group, and that of "*" reaches all |
| InformerRegistry.ChangedPlanSignals | pkg/informer/collectorConfigReload.go:145-186 | If a reload changes what extraction does for a resource, one of the keys it lists signals that resource's informer |
| InformerRegistry.ChangedConfigIsDispatched | pkg/informer/collectorConfigReload.go:86-176 | In every interleaving that has settled since the keys of a reload were queued, one later drain has all of them; whatever the names are by the time they are dispatched, they signal the informer of every resource that is found under its name and whose extraction the reload changed |
| InformerRegistry.ServePoke | pkg/informer/runInformers.go:620-635 | The main loop's turn drains what is pending by then, syncs if due and dispatches; the informers and names are then those of the discovery if a sync was due and it answered and unchanged otherwise, kept informers are the same instances and each dropped one is cancelled once; exactly the informers that had a request or that some drained key asks for have one, among them every informer that ran before, is still wanted, and whose extraction a pending change concerns |
| InformerRegistry.RunInformers | pkg/informer/runInformers.go:551-658 | However the turns of the event loop go, exactly the resources of the last list that was got have a running informer |

## Left out

- HTTP, TLS, JSON, Kubernetes clients, discovery calls, the namespace filter, leases, metrics, health checks and environment variables: input and output only; replies and discovery answers are parameters.
- Writes to node metadata while edges are built (`_hostingApplication`, `_missingResources`, `ReleaseUID`, `OwnerUID`): they alias the current and the previous nodes; builders are pure functions here.
- DestinationEdges.EdgesByDestinationName: when bare and qualified names share one list the edges are not determined, because the namespace of a qualified name is left behind for whichever names the map order visits next; termination, endpoints, kinds, and the edges that no mixed list leads to are stated then too.
- The builders of single kinds, `CommonEdges`, `edgesByDeployerSubscriber` and JSONPath extraction: field copying over libraries that are not modelled. The replication results hold for any builders that name stored nodes.
- `copyhostingSubProperties` (pkg/transforms/common.go:736-767): it keeps no list of seen nodes, so it ends only on acyclic owners.
- SyncProtocol.RemoteMatchesLastReport: runs that accept an answer with errors for single items are excluded, for the reason given by SyncProtocol.AcceptedAnswerExactIff; the types and kinds of kept edges are excluded for the reason given by Replication.EdgeDetailsExactIff.
- ReconcilerRuns.ShortcutLosesNothing: assumes that no two different nodes share group, kind, namespace and name; otherwise two rebuilds in a row may differ (Rebuilds.TwinsRebuildDiffers).
- SenderModule.Sender.Sync: runs over a finite script of arrivals and replies and may end while still waiting; that endless busy replies are ever followed by another one is not claimed. The retry counter, sleeping and reloading the client are left out.
- A property that Go would assert to be a string and is not, or an owner without a kind, would panic while building edges; here it reads as the empty string. A release whose revision is not an integer does panic in the model, as an outcome of the event.
- Backoff.RunSendLoop: that waits and factors are as meant is promised for caps that fit as a duration, about 9.2 * 10^12 ms, and only for those can it be (Backoff.CapFitsIff; Backoff.HugeCapStopsBackoff shows one that does not), and for jitters below a quarter of the 64-bit range. The wait inside a busy retry has no bound on its counter, and a power of two too large for the conversion to an integer, which does not occur under these conditions, is read as wrapping around.
- ConfigSlices.CopyAll: of the copies that the source makes only the property lists are modelled as arrays; the edge lists and the thresholds behind pointers, which nothing appends to, are values.
- ConfigMerge.LoadAndMerge: configs are values here, and only the property lists are also modelled as slices over shared arrays (ConfigSlices), since they are all that is appended to; the status conditions written back are left out except for the warnings.
- The state before the first load, when lookups fall back to the defaults.
- `listAndResync` and `watch` of an informer: the listed UIDs are not kept in its index, so index and announced resources may differ. What an informer does with a request is left out.
- CRD parsing, printer columns, label matching and type conversion of single properties.
