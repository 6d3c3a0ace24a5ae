# KiviTree in Dafny

A model of the key-value cluster KiviTree and proofs about it: the leaf cluster protocol, the LRU engine that
every node runs, and the algorithms of the HTTP layer (`httplib.h`) beneath the REST interface. `dafny verify
dfyconfig.toml` checks everything.

## What is modelled

**The LRU engine.** `Lru` gives the engine as a value, a recency list with a map, and the theorems about whole
traces of operations. `LruStore` has the classes of the source: the list with nodes of their own identity, the
index of iterators, the hash map, all updated in place and proved against `Lru`, and the snapshot payload.
Capacities are at least 1, as `put` needs a last element to evict. `Lists` holds facts about sequences.

**The cluster.** `Leaf` gives one leaf node as functions on a value: membership tables, failure detector,
self-promotion, client requests, message handler. `LeafNode` is the class with the loops and updates of the
source, proved against it, and `LeafFacts` and `NodeEffects` say what those functions guarantee, the latter in
the fields of the node and the messages that each other node gets. `Cluster` puts nodes together: a queue of
messages for each ordered pair of nodes, one clock, and the steps send heartbeats, scan, deliver, write, read,
start, lose a message, crash. On top of it:

- `Leadership`: at most one live node accepts writes as long as heartbeats are timely, and two such nodes always
  betray a false suspicion; `TimingBound`: the timing condition is exact.
- `Failover`: detection of crashed peers, how often the leader-failure callback fires, and agreement after the
  initial leader has crashed; `TimedFailover`: when the takeover is complete if heartbeats are timely.
- `Replication`, `NoRollback`, `Convergence`, `Healing`: what followers hold under one leader; values never step
  back, and one snapshot heals every earlier loss while everything written fits.
- `Erasure`, `History`: the cluster never looks at values, so every run can be dated, and a follower goes
  through the leader's writes of a key in one direction.
- `CatchUp`: whom a node asks for data that starts or is told of a new leader, and what it then holds.
- `Takeover`: which writes of the old and of the new leader survive a takeover; `Successor`: what a follower
  holds after catching up with the new leader; `StaleKeys`: a run in which that is more than the new leader
  holds.
- `SplitSnapshot`, `StaleSnapshot`: reading a snapshot and sending it as two steps; values can roll back exactly
  where a push overtakes a snapshot that holds its key.

What the cluster results assume: membership is full and static and all nodes start with the same leader; links
are first in, first out, messages may be lost, nodes crash and stay down; a step of a node is atomic (except in
`SplitSnapshot` and `StaleSnapshot`, where answering a sync request takes two), and client writes are taken one
at a time; the clock is common to all nodes; node ids stand for addresses and fit the leader id's integer type.
Values are of any type. The rank in `ReplicaNeverRollsBack` is any function of key and value.
`local_cluster_leader` stays at its initial value (src/main.cpp:45), as in the source. The cluster type of a
local heartbeat is never assigned (src/kivitree_paxos/paxos_node.cpp:115-119), so it is a parameter of the
sending step; with static membership it never matters.

**The HTTP layer.** A `char` stands for one byte.

- `WorkerPool`: the thread pool as a state machine over its critical sections, notifications and spurious
  wake-ups, for any number of workers and callers.
- `HttpText`, `Multimaps`, `Query`, `QueryKeys`: trimming, splitting, searching; percent coding and query
  strings. A multimap is the sequence in which it is iterated. `QueryText`: what every text spells, escapes that
  are none included, and how parameters spelled in any way are read.
- `Multipart`, `MultipartHeaders`, `MultipartRoundTrip`, `MultipartParser`: the form-data parser as a function
  of its buffer, the serializer, their round trip under any splitting, and the parser object over an array
  buffer; `MultipartOpening` and `MultipartLimits`: where the round trip ends, exactly; `FormFiles`: the form
  the server makes of the entries. The pattern for Content-Disposition is a prefix match that ignores case; the
  header-line check leaves only blanks where the pattern allows white space. `Dispositions` and
  `DispositionLimits`: what any header line of an entry does, and which names come back; `MultipartEnds`: when a
  body is complete, and what stops the parser for good.
- `HeaderFields`: header lines and the fields they give.
- `Streams`, `Lines`, `Chunked`, `ChunkedRoundTrip`: a socket that delivers its bytes in portions nobody
  controls, on which any wait can fail, the buffered stream and the line reader on it, and the chunked coding
  (section 7.1 of RFC 9112) without compression. `strtoul` is modelled as the C standard describes it, with 64
  bits. `ChunkSizes` and `ChunkedGrammar`: which number each size line gives, and which streams the reader
  accepts, exactly.
- `Ranges`, `RangeAnswers`: normalisation of byte ranges, which bytes each request means, and the multipart
  answer, read back as a client would.

## Where the code and its descriptions differ

- The heartbeat period carries the comment "3 seconds" and is 5 (src/kivitree_paxos/paxos_node.cpp:17); the
  model has 5.
- A header line of the multipart parser may have 8192 bytes, but one of exactly that length is refused if its
  line end is cut in two, so entries survive every splitting exactly if their header lines are shorter
  (`RoundTripIffLinesShort`).
- A multipart opening that is cut inside its boundary line is thrown away, and then the entries never come back
  (`RoundTripIffOpeningWhole`).
- A snapshot can be overtaken by a push of a newer value and then takes the follower back
  (`RollbackIffOvertaken`).
- A push of the crashed leader that is still in flight can undo a write that its successor has accepted
  (`NewWritesSurviveIff`).
- A follower that catches up with a new leader keeps keys that this leader never got, so that the two stay
  different (`StaleKeyStays`); `SuccessorHealsIff` says exactly when they agree.
- A name or file name with a semicolon or an equals sign does not survive its own disposition line
  (`DispositionReadsBackIff`).
- A chunked message that ends behind its last size line, without a trailer or an empty line, is accepted
  (`AcceptedIffMessage`).
- A job accepted by the worker pool after its last worker has left never runs (`JobRunsIffPoolOpen`).
- A batch larger than the capacity leaves a store that depends on the iteration order of a hash map
  (`OrderIrrelevantIffBatchFits`).
- A query string with a repeated pair loses the repetition, and keys, which are written without coding, can be
  read as something else (`QueryRoundTripIff`).

## Model

| member | source | states |
|---|---|---|
| Lru.InsertEffect | src/kivitree_core/lru_store.cpp:5-28 | a put moves its key to the front, keeps the order of the others, evicts only the least recent key and only when a new key meets a full store |
| Lru.StepKeepsValid | src/kivitree_core/lru_store.cpp:5-48 | every operation keeps the recency list free of duplicates, in step with the map, and within the capacity |
| Lru.RunKeepsValid | src/kivitree_core/lru_store.cpp:5-48 | so does every trace of operations, from an empty store |
| Lru.HitReturnsLastPut | src/kivitree_core/lru_store.cpp:5-48 | after any trace a hit returns the last value put for that key since its last removal |
| Lru.DeleteEffect | src/kivitree_core/lru_store.cpp:42-48 | a removal takes out its key alone: all other values, and the order of the other keys, stay; removing an absent key changes nothing |
| Lru.InsertWithRoom | src/kivitree_core/lru_store.cpp:24-27 | a put into a store with room loses nothing |
| Lru.RoomyStoreIsMap | src/kivitree_core/lru_store.cpp:5-48 | after any trace that puts at most `capacity` different keys every lookup, hit or miss, gives the last value put for the key and not removed since |
| Lru.MoveToFrontNoDuplicates | src/kivitree_core/lru_store.cpp:30-40 | the unbounded move-to-front list of a touch sequence lists each touched key once |
| Lru.MoveToFrontOrder | src/kivitree_core/lru_store.cpp:30-40 | it lists keys by their last touch, latest first |
| Lru.RemoveFreeTraceIsMoveToFront | src/kivitree_core/lru_store.cpp:5-40 | without removals the recency list is the first `capacity` entries of the unbounded move-to-front list |
| Lru.StepKeepsInclusion | src/kivitree_core/lru_store.cpp:5-48 | one operation on two stores of capacities s <= l keeps the smaller list a subsequence of the larger, with no more free slots and the same values |
| Lru.CapacityInclusion | src/kivitree_core/lru_store.cpp:5-48 | for every common trace the smaller store is included in the larger, so every hit in the smaller is a hit with the same value in the larger |
| Lru.LoadOrder | src/kivitree_core/lru_store.cpp:55-60 | loading a batch one put at a time leaves its keys in front, latest first, and then the most recent old keys outside it |
| Lru.BatchOrderDoesNotMatter | src/kivitree_core/lru_store.cpp:55-60 | a batch of at most `capacity` keys ends in the same map for every iteration order: the batch plus the most recent old keys that still fit |
| Lru.OrderIrrelevantIffBatchFits | src/kivitree_core/lru_store.cpp:55-60 | the resulting map is independent of the iteration order exactly if the batch fits into the capacity |
| Lru.FirstOfOversizedBatchIsLost | src/kivitree_core/lru_store.cpp:55-60 | for a larger batch the key iterated first is lost, and kept when it is iterated last |
| LruStore.HashStore.Put | src/kivitree_core/hash_store.cpp:4-7 | stores the pair and nothing else |
| LruStore.HashStore.Remove | src/kivitree_core/hash_store.cpp:13-15 | removes the key and says whether it was there |
| LruStore.HashStore.Get | src/kivitree_core/hash_store.cpp:17-23 | the stored value, or none |
| LruStore.IndexPointsAtOwnKey | include/kivitree_core/lru_store.hpp:12-16 | in a well-formed store each index entry denotes the list node that holds its own key, and every listed key has one |
| LruStore.EraseEffect | src/kivitree_core/lru_store.cpp:34-36 | erasing the node of a key takes that key out of the list and leaves every other iterator valid |
| LruStore.PushEffect | src/kivitree_core/lru_store.cpp:25-26 | pushing a key that is not listed puts it first and gives it an index entry |
| LruStore.LRUStore.constructor | include/kivitree_core/lru_store.hpp:19 | an empty store of the given capacity |
| LruStore.LRUStore.Put | src/kivitree_core/lru_store.cpp:5-28 | list, index and map in place refine Insert |
| LruStore.LRUStore.Get | src/kivitree_core/lru_store.cpp:30-40 | refines Touch, changes no value, and returns the stored one |
| LruStore.LRUStore.Remove | src/kivitree_core/lru_store.cpp:42-48 | the map loses the key and nothing else, the list keeps the other keys in order, and the result says whether the key was there; in place this refines Delete |
| LruStore.LRUStore.GetKvBatch | src/kivitree_core/lru_store.cpp:50-53 | the whole map |
| LruStore.LRUStore.SetKvBatch | src/kivitree_core/lru_store.cpp:55-60 | refines loading some enumeration of the batch; a batch that fits gives the map that does not depend on which |
| LruStore.LocalSyncPayload.LoadFromMap | include/kivileaf/local_sync_payload.hpp:44-56 | the update list holds the pairs of the map in some order, all with the same time stamp |
| LruStore.LocalSyncPayload.AddUpdate | include/kivileaf/local_sync_payload.hpp:62-64 | appends one update |
| LruStore.LocalSyncPayload.GetPayload | include/kivileaf/local_sync_payload.hpp:22-30 | the map the updates describe, a later update replacing an earlier one of the same key |
| LruStore.PayloadRoundTrip | include/kivileaf/local_sync_payload.hpp:22-56 | turning a map into updates, in any order, and back gives the map |
| LruStore.SnapshotReproducesMap | src/kivitree_core/lru_store.cpp:50-60 | a batch sent through the payload into an empty store that is large enough reproduces the map, whatever both iteration orders are |
| LeafNode.KiviLeaf.AddNewNode | src/kivitree_paxos/paxos_node.cpp:295-314 | a new live entry at the end of the table that the cluster type names |
| LeafNode.KiviLeaf.RegisterClusterNodes | src/kivitree_paxos/paxos_node.cpp:396-400 | all given nodes join the local table, in order |
| LeafNode.KiviLeaf.UpdateLastSeen | src/kivitree_paxos/paxos_node.cpp:270-293 | refreshes the first entry found, looking in the cluster table first, and touches no other |
| LeafNode.KiviLeaf.ReceiveHeartBeat | src/kivitree_paxos/paxos_node.cpp:324-338 | the heartbeat step of the specification |
| LeafNode.KiviLeaf.GetCurrentLeader | src/kivileaf/kivileaf.cpp:30-45 | the first local entry with the current leader id; none exactly if there is no such entry, where the source throws |
| LeafNode.KiviLeaf.SendToLivePeers | src/kivileaf/kivileaf.cpp:71-104 | one message to every other local node marked alive |
| LeafNode.KiviLeaf.BroadcastHeartBeat | src/kivitree_paxos/paxos_node.cpp:99-152 | one heartbeat to every other node of both tables |
| LeafNode.KiviLeaf.TrySelfPromote | src/kivileaf/kivileaf.cpp:106-142 | the promotion step of the specification: state and messages |
| LeafNode.KiviLeaf.ScanClusterTable | src/kivitree_paxos/paxos_node.cpp:165-177 | marks overdue cluster entries dead |
| LeafNode.KiviLeaf.ScanLocalEntry | src/kivitree_paxos/paxos_node.cpp:178-195 | marks one local entry and calls the failure callback at once if it is the overdue leader's |
| LeafNode.KiviLeaf.FailureDetectionScan | src/kivitree_paxos/paxos_node.cpp:159-197 | one pass of the detector, promotion in the middle of it and the calls of the failure callback included |
| LeafNode.HandlePut | src/kivileaf/kivileaf_rest_controller.cpp:79-124 | redirect or refuse when not the leader, refuse an empty key or value, otherwise store and push to the live followers |
| LeafNode.KiviLeaf.ClientGet | src/kivileaf/kivileaf_rest_controller.cpp:57-77 | returns the stored value and counts as a use of the key |
| LeafNode.KiviLeaf.PushLeaderData | src/kivileaf/kivileaf.cpp:53-69 | sends a snapshot of the whole store to the requester |
| LeafNode.KiviLeaf.PullLeaderData | src/kivileaf/kivileaf.cpp:47-51 | asks the node remembered as current leader for a snapshot |
| LeafNode.KiviLeaf.HandleMessage | src/kivileaf/kivileaf.cpp:144-227 | field by field what each message does: a push is put, a response loaded, both set the sync time; a promotion sets the leader and, if the leader is known, the sync target, and asks the target for its data; a request is answered with a snapshot; nothing else changes store, leader or role |
| LeafNode.KiviLeaf.Boot | src/kivileaf/kivileaf.cpp:244-252 | on start a node that knows its leader remembers it and, unless it is the leader itself, asks it for a snapshot; otherwise nothing happens |
| LeafFacts.LocalEntryRefreshedIff | src/kivitree_paxos/paxos_node.cpp:270-293 | the local entry of a sender is refreshed exactly if the cluster table does not list it as well |
| LeafFacts.ScanEffect | src/kivitree_paxos/paxos_node.cpp:159-197 | at every node a whole scan marks the entries of both tables and promotes at most once, and only when the leader's entry is overdue, the node followed is marked dead and no live entry has a lower id |
| LeafFacts.ScanEntries | src/kivitree_paxos/paxos_node.cpp:178-195 | what the scan makes of each entry |
| LeafFacts.LowestAliveIsLowest | src/kivileaf/kivileaf.cpp:120-127 | the id computed is the lowest of the node's own and those of the live entries |
| LeafFacts.ToLivePeersReaches | src/kivileaf/kivileaf.cpp:89-98 | every other node marked alive is addressed, and never the node itself |
| LeafFacts.TableOpKeepsEntries | src/kivitree_paxos/paxos_node.cpp:159-197 | heartbeats and scans keep one entry per id over both tables and never drop or reorder entries |
| LeafFacts.TablesStayConsistent | src/kivitree_paxos/paxos_node.cpp:270-314 | over every run of heartbeats and scans: one entry per id, no local entry lost, and a registered local sender always refreshes the entry the scan reads |
| NodeEffects.KnownSenderIsRefreshed | src/kivitree_paxos/paxos_node.cpp:270-338 | a heartbeat of a registered sender makes its first entry, cluster table before local one, alive and seen at the stamp, and changes nothing else at all |
| NodeEffects.UnknownSenderJoins | src/kivitree_paxos/paxos_node.cpp:295-338 | a sender in neither table joins the end of the table its message names, alive |
| NodeEffects.BeatsReachEveryPeer | src/kivitree_paxos/paxos_node.cpp:97-152 | a round of heartbeats puts on the link to each other node of either table exactly one, of that table's kind, and none to the node itself |
| NodeEffects.ScanMarks | src/kivitree_paxos/paxos_node.cpp:159-197 | after a scan an entry is alive exactly if it is the node's own, or was alive and not silent for more than 15000 ms; stamps, ids and all fields but leader and role stay |
| NodeEffects.ScanPromotesIff | src/kivitree_paxos/paxos_node.cpp:178-195 | a scan promotes the node exactly if some entry is that of the watched leader just found silent, the followed leader is known and has no live entry, and no live entry has a lower id; otherwise role and leader stay and nothing is sent |
| NodeEffects.PromotionIsTold | src/kivileaf/kivileaf.cpp:89-142 | each other node alive when the scan reaches the leader's entry is told of the promotion once, and nobody else |
| NodeEffects.StartAsksLeader | src/kivileaf/kivileaf.cpp:244-252 | a start changes nothing but the sync target, and sends nothing but one request, to the leader followed |
| Cluster.QueueAfter | src/kivileaf/kivileaf.cpp:71-104 | what each step does to each link: the delivered or lost message leaves, new ones join at the end |
| Cluster.StepKeepsStatic | src/kivileaf/kivileaf.cpp:144-227 | no step changes who is in the tables, node ids, or whose failure a node reacts to |
| Cluster.RunKeepsStatic | src/kivileaf/kivileaf.cpp:144-227 | so it is in every reachable state |
| Leadership.PromotionIsJustified | src/kivileaf/kivileaf.cpp:106-142 | without false suspicion a promotion is justified: the initial leader is down and no node that is up has a lower id |
| Leadership.StepKeepsLeadersLowest | src/kivileaf/kivileaf.cpp:106-142 | without false suspicion, a leader other than the initial one has outlived it and is the lowest node still up |
| Leadership.LeadersStayLowest | src/kivileaf/kivileaf.cpp:106-142 | in every state of a run without false suspicion, whoever accepts writes is the initial leader, or has outlived it and is the lowest node up |
| Leadership.TwoLeadersImplyAFalseSuspicion | src/kivileaf/kivileaf.cpp:106-142 | two nodes accepting writes imply that some live node had been marked dead by a live one |
| Leadership.StampsAfter | src/kivitree_paxos/paxos_node.cpp:349-386 | heartbeat stamps enter a link only by sending, leave it in order, and none other appear |
| Leadership.StepKeepsLink | src/kivitree_paxos/paxos_node.cpp:178-195 | stamps on a link stay no further apart than the send gap |
| Leadership.TimelyRunIsAccurate | src/kivitree_paxos/paxos_node.cpp:178-195 | with gap and delay together at most 15000 ms no table lists a live node as dead, in every reachable state |
| Leadership.NoFalseSuspicion | src/kivitree_paxos/paxos_node.cpp:159-197 | the detector is accurate under that timing |
| Leadership.AtMostOneLeader | src/kivileaf/kivileaf_rest_controller.cpp:79-103 | under that timing at most one live node passes the leader check of the write handler, in every state of every run |
| TimingBound.TwoLeadersBeyondTheBound | src/kivitree_paxos/paxos_node.cpp:17-18 | the bound is exact: for every positive gap and any delay that together exceed 15000 ms there is a timely run that ends with two nodes accepting writes |
| Failover.CrashedPeerIsDetected | src/kivitree_paxos/paxos_node.cpp:178-195 | once the heartbeats of a crashed peer have arrived, the last stamped s, the first scan after s + 15000 marks it dead |
| Failover.SilenceLasts | src/kivitree_paxos/paxos_node.cpp:178-195 | the entry of a crashed peer whose heartbeats have all arrived keeps its last stamp |
| LeafFacts.CallbackOnce | src/kivitree_paxos/paxos_node.cpp:178-195 | a scan calls the leader-failure callback once if it finds the watched leader overdue, and never otherwise |
| Failover.FiringsMatchRevivals | src/kivitree_paxos/paxos_node.cpp:185-194 | the calls of the leader-failure callback are exactly one more than the revivals of the leader's entry if the entry is dead, and equally many if it is alive |
| Failover.OverdueScanPromotes | src/kivileaf/kivileaf.cpp:106-142 | the scan of the lowest replica that finds its leader overdue makes it a leader |
| Failover.StepKeepsSuccession | src/kivileaf/kivileaf.cpp:194-217 | only the lowest replica can take over, and every live node follows it or has its promotion message coming |
| Failover.FailoverAgreement | src/kivileaf/kivileaf.cpp:89-142 | if only the initial leader crashes, only the lowest replica is ever promoted, and once it is and no promotion message is in flight every live node names it |
| Failover.OverdueLeaderIsReplaced | src/kivileaf/kivileaf.cpp:106-142 | the takeover happens at the first scan that finds the leader overdue |
| TimedFailover.TakeoverOnTime | src/kivitree_paxos/paxos_node.cpp:97-197 | with timely heartbeats, no other crash and no promotion message lost, from the lowest replica's first scan more than 15 seconds behind the crash of the leader on, that replica and nobody else accepts writes |
| TimedFailover.AgreementOnTime | src/kivitree_paxos/paxos_node.cpp:97-197 | and once its promotion messages have been consumed, every live node follows it |
| TimedFailover.DeadMeansTakenOver | src/kivitree_paxos/paxos_node.cpp:178-195 | a lowest replica that lists the initial leader as dead has taken over |
| Replication.StoreAfter | src/kivileaf/kivileaf.cpp:148-193 | which step changes which store, and how |
| Replication.StepKeepsOneWay | src/kivileaf/kivileaf.cpp:53-87 | only the leader sends data and only to others |
| Replication.LivePeersGetOneMessage | src/kivileaf/kivileaf.cpp:71-81 | a push puts exactly one message on the link to each node believed alive, and none on the others |
| Replication.DataAfter | src/kivileaf/kivileaf.cpp:53-87 | how the data in flight to a follower changes in each step, losses included |
| Replication.FedOffers | src/kivileaf/kivileaf.cpp:53-87 | everything the leader sends carries the latest value it holds |
| Replication.FollowerStore | src/kivileaf/kivileaf.cpp:148-193 | a follower's store changes only by what the leader's messages carry |
| Replication.LeaderStore | src/kivileaf/kivileaf_rest_controller.cpp:117-121 | the leader's store changes only by accepted writes |
| Replication.RunIsOrderly | src/kivileaf/kivileaf.cpp:144-227 | these facts hold in every state of a run under one leader |
| NoRollback.LinkStaysAbove | src/kivileaf/kivileaf.cpp:53-87 | along a link from the leader the values of a key never step back, from any point of the run on |
| NoRollback.ReplicaNeverRollsBack | src/kivileaf/kivileaf.cpp:148-193 | if the leader's writes of a key never decrease in rank, neither do a follower's values of it, across losses, skipped pushes, snapshots, evictions and reads |
| Erasure.StepErased | src/kivileaf/kivileaf.cpp:148-193 | a step on values that carry their date is, without the dates, the same step: nothing in the cluster looks at a value |
| Erasure.EveryRunHasDates | src/kivileaf/kivileaf.cpp:148-193 | every run is what is left of a run in which each written value carries the step that wrote it |
| History.HeldIsGenuine | src/kivileaf/kivileaf.cpp:148-193 | whatever a follower holds is what an earlier accepted write wrote |
| History.HistoryIndexNeverDecreases | src/kivileaf/kivileaf.cpp:148-193 | in a dated run the date of what a follower holds for a key never decreases |
| History.FollowerHistoryNeverRollsBack | src/kivileaf/kivileaf.cpp:148-193 | in every run under one leader each value a follower holds for a key comes from an accepted write of it, and the place of that write in the run never goes back |
| SplitSnapshot.HalvesMakeTheStep | src/kivileaf/kivileaf.cpp:53-69 | reading a snapshot and sending it, with nothing in between, is the one step of the cluster |
| SplitSnapshot.NoRollbackUnlessOvertaken | src/kivileaf/kivileaf.cpp:53-87 | with reading and sending apart, a follower's values of a key still never roll back as long as no push of that key overtakes a snapshot that holds it |
| StaleSnapshot.OvertakingRollsBack | src/kivileaf/kivileaf.cpp:53-87 | whenever a push overtakes a snapshot that holds its key, steps without any write lead from there to the follower having the new value and then the old one again |
| StaleSnapshot.RollbackIffOvertaken | src/kivileaf/kivileaf.cpp:53-87 | in every state of a run in which nothing has overtaken a snapshot, the next accepted write of a higher value can be rolled back later, with nothing further overtaking, exactly if its own push overtakes a snapshot that holds the key |
| StaleSnapshot.RollbackHappens | src/kivileaf/kivileaf.cpp:53-87 | it does happen: from the start of a two-node cluster, steps lead to a write that overtakes, and then to its follower having that value and the earlier one again |
| CatchUp.PromotionIsFollowed | src/kivileaf/kivileaf.cpp:194-217 | a node that consumes the promotion of a registered node follows it, has it as sync target, and sends it exactly one sync request; no other link of the node gains anything and no other node changes |
| CatchUp.SyncTimeIsLast | src/kivileaf/kivileaf.cpp:148-193 | in every run the sync time of a node is the stamp of the last data message that it has consumed |
| CatchUp.AskedIsAnswered | src/kivileaf/kivileaf.cpp:158-182 | a request that was in flight, is no longer, and was not lost has been answered with a snapshot in between |
| CatchUp.KeysAreWritten | src/kivileaf/kivileaf.cpp:148-193 | in every run no store and no message knows a key that has not been written |
| Convergence.ReceivedWithRoom | src/kivileaf/kivileaf.cpp:184-193 | a follower with room merges exactly what it receives |
| Convergence.StepKeepsCovered | src/kivileaf/kivileaf.cpp:53-87 | the leader holds exactly the latest values, and neither a follower nor its link knows any other key |
| Healing.AnswerHeals | src/kivileaf/kivileaf.cpp:53-69 | a snapshot answer of any node that feeds a follower puts the whole map of that node over what the follower is headed for, whatever was lost before |
| Healing.LosslessStepKeepsPending | src/kivileaf/kivileaf.cpp:71-87 | every lossless step keeps the follower headed for the map of the node that feeds it, over what there was |
| Healing.SnapshotHealsFollower | src/kivileaf/kivileaf.cpp:158-193 | while everything written fits, a follower that has consumed its lossless messages since a snapshot answer holds exactly the leader's map |
| CatchUp.StartedFollowerCatchesUp | src/kivileaf/kivileaf.cpp:47-69 | while everything written fits, a follower that starts, whose request and data are not lost, holds exactly the latest value of every key once its link is consumed and no request of it is under way |
| Takeover.OldWritesSurviveIff | src/kivileaf/kivileaf.cpp:104-141 | what the promoted replica holds and what is in flight to it is together everything the old leader accepted; it holds the latest value of a key exactly if no other value for it is still in flight |
| Takeover.StepKeepsDataFromLeaders | src/kivileaf/kivileaf.cpp:148-224 | every step keeps it so that only the old leader and its successor send data, are asked for data, and never themselves |
| Takeover.NewWritesSurviveIff | src/kivileaf/kivileaf.cpp:148-193 | a value accepted by the replica that has taken over can be lost to another one, without any further write, exactly if a message of the old leader with another value for its key is still in flight |
| Takeover.NewWriteCanBeLost | src/kivileaf/kivileaf.cpp:148-193 | a run of a two-node cluster that ends in such a state |
| Successor.SuccessorHealsIff | src/kivileaf/kivileaf.cpp:158-217 | in a failover with room for everything written: a follower answered by the successor when no data of the old leader is in flight to either any more, which has lost none of the successor's data since and consumed the link, holds every key of the successor with its value, and beyond these exactly the keys it was headed for when it was answered; so the two maps are equal exactly if the successor holds all of those keys |
| Successor.PromotedFollowerCatchesUp | src/kivileaf/kivileaf.cpp:194-217 | a follower that consumes the promotion when the old leader's data is no longer in flight, and loses neither its request nor data, ends with all that the successor holds; with exactly that if the successor lacked no key written by then |
| StaleKeys.StaleKeyStays | src/kivileaf/kivileaf.cpp:184-217 | a run of three nodes in which the follower keeps a key that its successor never got, so that the two end with different maps |
| WorkerPool.DispatchedInOrder | include/kivitree_utils/httplib.h:796-807 | in every interleaving, what was accepted is what was dispatched followed by what is queued: order kept, nothing lost, nothing doubled |
| WorkerPool.AcceptedIff | include/kivitree_utils/httplib.h:796-807 | in every run a job is accepted exactly if there is no bound or fewer jobs than the bound are accepted and not yet dispatched, and then it is the next one accepted |
| WorkerPool.UnboundedTakesAll | include/kivitree_utils/httplib.h:785-807 | without a bound, the default, what was dispatched followed by what is queued is the jobs of all calls of enqueue, in order: nobody is refused |
| WorkerPool.DispatchedRunOnce | include/kivitree_utils/httplib.h:828-848 | of each job, as many runs have finished or are under way as were dispatched |
| WorkerPool.StepKeepsSound | include/kivitree_utils/httplib.h:796-848 | each step keeps: while a worker sleeps, every queued job has a waking worker or a notification on its way; nobody sleeps through a finished shutdown; the queue bound; workers leave only after shutdown |
| WorkerPool.RunIsSound | include/kivitree_utils/httplib.h:796-848 | so it is in every reachable state |
| WorkerPool.NoLostWakeup | include/kivitree_utils/httplib.h:834-835 | queued jobs beyond the wake-ups under way mean that no worker sleeps |
| WorkerPool.NeverStuck | include/kivitree_utils/httplib.h:834-837 | with work queued or shutdown set, some worker or notification can move, or all workers have left |
| WorkerPool.DrainStep | include/kivitree_utils/httplib.h:809-823 | after shutdown every step other than a new call lowers the number of steps left |
| WorkerPool.DrainEnds | include/kivitree_utils/httplib.h:809-823 | a pool told to shut down and left alone takes at most that many steps |
| WorkerPool.AcceptedWhileOpen | include/kivitree_utils/httplib.h:834-840 | everything accepted before the last worker left has been dispatched once all have left |
| WorkerPool.ShutdownRunsEverything | include/kivitree_utils/httplib.h:809-823 | once all workers are joined, every job accepted before shutdown has run to its end |
| WorkerPool.AcceptedTooLate | include/kivitree_utils/httplib.h:796-807 | a job accepted after the last worker left never runs: enqueue does not look at the shutdown flag |
| WorkerPool.JobRunsIffPoolOpen | include/kivitree_utils/httplib.h:796-840 | an accepted job has been run to its end when all workers have left exactly if some worker had not left when it was accepted |
| WorkerPool.LateJobNeverRuns | include/kivitree_utils/httplib.h:796-840 | a run in which a job is accepted after the only worker has left, and is never run |
| WorkerPool.ThreadPool.constructor | include/kivitree_utils/httplib.h:785-791 | n workers about to evaluate the wait condition, nothing queued, not shut down, the given bound |
| WorkerPool.ThreadPool.Enqueue | include/kivitree_utils/httplib.h:796-807 | accepts exactly if the bound is 0 or the queue is shorter than it; then the job goes to the end of the queue, and otherwise the queue stays |
| WorkerPool.ThreadPool.Work | include/kivitree_utils/httplib.h:828-842 | the locked part of a worker's round is the check step: wait, leave or take the first job |
| WorkerPool.ThreadPool.Shutdown | include/kivitree_utils/httplib.h:809-814 | the locked part of shutdown |
| HttpText.TrimRange | include/kivitree_utils/httplib.h:2986-2995 | the two loops narrow a range to its trimmed text even though they may run past its ends |
| HttpText.TrimCopy | include/kivitree_utils/httplib.h:2997-3000 | the text without blanks at its ends |
| HttpText.TrimIff | include/kivitree_utils/httplib.h:2984-3000 | a text is what trimming gives exactly if nothing but blanks were around it and it has none at its ends |
| HttpText.UnquoteIff | include/kivitree_utils/httplib.h:3002-3007 | quotes come off exactly where there is one at either end |
| HttpText.TokenCharIff | include/kivitree_utils/httplib.h:2666-2670 | the characters of a token are the visible ones but the delimiters of section 5.6.2 of RFC 9110 |
| HttpText.FieldCharIff | include/kivitree_utils/httplib.h:2682-2713 | field values hold tabs and everything but control characters |
| HttpText.SameLetterIff | include/kivitree_utils/httplib.h:359-390 | comparing without case takes two characters for the same exactly if they are, or are one letter in two cases |
| HttpText.Split | include/kivitree_utils/httplib.h:3030-3055 | the trimmed non-empty parts between separators, in order |
| Query.FromHexToI | include/kivitree_utils/httplib.h:2741-2756 | the number that the next digits spell, or none if one is missing or not hexadecimal |
| Query.DecodeUrl | include/kivitree_utils/httplib.h:2940-2975 | the loop computes the decoding function, of which QueryText says what it makes of every text |
| Query.EncodeQueryParam | include/kivitree_utils/httplib.h:2887-2906 | the loop computes the encoding function, of which QueryText says what it writes for every text |
| Query.DecodeEncode | include/kivitree_utils/httplib.h:2887-2975 | decoding undoes encoding for every byte string, with and without plus as space |
| QueryText.HexDigitIs | include/kivitree_utils/httplib.h:2727-2739 | a hexadecimal digit is one of 0 to 9, a to f and A to F, with its value |
| QueryText.PlusIsBlank | include/kivitree_utils/httplib.h:2965-2966 | with plus for a blank a text is decoded like the one that has, position by position, a blank for each plus, without |
| QueryText.DecodesAsSpelled | include/kivitree_utils/httplib.h:2940-2975 | decoding a text spelled in plain characters, plus signs, %XX and %uXXXX escapes gives what they mean, one after the other |
| QueryText.EveryTextIsSpelled | include/kivitree_utils/httplib.h:2940-2975 | and every text is spelled so: what only looks like an escape stands for itself |
| QueryText.Utf8ReadsBack | include/kivitree_utils/httplib.h:2768-2799 | the code of a %uXXXX escape is read back from its UTF-8 form, as section 3 of RFC 3629 defines it, in the shortest form; a surrogate gives nothing |
| QueryText.EncodesAsSpelled | include/kivitree_utils/httplib.h:2887-2906 | encoding writes letters, digits and -_.!~*'() as they are and every other byte as its two upper-case digits |
| Multimaps.EmplaceKeepsSorted | include/kivitree_utils/httplib.h:4897-4899 | inserting a pair keeps the map in key order and adds exactly that pair |
| Multimaps.LessIff | include/kivitree_utils/httplib.h:4897-4899 | keys are ordered by their first difference, and a key comes before its extensions |
| Multimaps.EmplacedLast | include/kivitree_utils/httplib.h:4897-4899 | it goes behind the pairs with the same key |
| Query.ParamsToQueryStr | include/kivitree_utils/httplib.h:4868-4878 | the loop computes the serialized form |
| Query.ParseQueryText | include/kivitree_utils/httplib.h:4880-4901 | the loop with its cache of texts computes the parsed map |
| Query.PiecesConcat | include/kivitree_utils/httplib.h:3030-3055 | splitting a text at a separator is splitting what is before and after it |
| Query.ParseSerialize | include/kivitree_utils/httplib.h:4868-4901 | reading back a written map with plain keys gives the map without repeated pairs |
| Query.PlainIsReadable | include/kivitree_utils/httplib.h:4868-4878 | keys that need no coding are read as they are |
| QueryText.ReadAsSpelled | include/kivitree_utils/httplib.h:4880-4901 | parameters spelled in any way and any order, each text once, are read as what keys and values spell; a key without an equals sign gets the empty value |
| QueryText.FormCodedReadsBack | include/kivitree_utils/httplib.h:4880-4901 | any byte strings, written with + for blanks and percent codes for what is reserved, are read back as key and value |
| QueryKeys.SerializedWeighs | include/kivitree_utils/httplib.h:4868-4878 | a key that is split, cut or trimmed when the query string is read loses weight there |
| QueryKeys.ReadWeighs | include/kivitree_utils/httplib.h:4880-4901 | what is read is no heavier than its text, and as heavy only if every key is read as it was written |
| QueryKeys.QueryRoundTripIff | include/kivitree_utils/httplib.h:4868-4901 | for all maps of byte values, reading back gives the map itself exactly if no pair is repeated and every key is non-empty, starts with no blank, holds neither & nor = and is not changed by decoding |
| Multipart.StepShrinks | include/kivitree_utils/httplib.h:5010-5137 | every round of the state loop takes bytes off the buffer or turns to reading headers, so parse ends |
| Multipart.SerializeMultipartFormdata | include/kivitree_utils/httplib.h:5263-5318 | the loop computes the serialized form |
| Multipart.IsMultipartBoundaryCharsValid | include/kivitree_utils/httplib.h:5263-5273 | true exactly for boundaries of letters, digits, dashes and underscores |
| Multipart.CollectConcat | include/kivitree_utils/httplib.h:6814-6828 | the entries that callbacks describe do not depend on how the callbacks are grouped into calls |
| Dispositions.FormLineIsRead | include/kivitree_utils/httplib.h:5052-5087 | a form-data disposition, in letters of either case, with any parameters in any order, quoted or bare: refused without a name; name and file name are those given first; a coded file name overrides a plain one if it is in UTF-8 and is refused otherwise |
| Dispositions.CodedNameReadsBack | include/kivitree_utils/httplib.h:5071-5085 | a file name in percent codes is read back as it was, whatever the plain one says |
| Dispositions.ParametersAreRead | include/kivitree_utils/httplib.h:4918-4940 | looking a key up gives the value of the first parameter that has it; text between two equals signs is skipped, a key alone has the empty value |
| Dispositions.TypeLineIsRead | include/kivitree_utils/httplib.h:5048-5052 | a content type is the text behind the colon, blanks at its ends aside |
| Dispositions.OtherLineIsIgnored | include/kivitree_utils/httplib.h:5042-5089 | a field of another name leaves the entry as it is |
| Dispositions.OtherDispositionIsIgnored | include/kivitree_utils/httplib.h:5053-5060 | so does a disposition that is not form-data |
| Dispositions.MalformedLineIsRefused | include/kivitree_utils/httplib.h:5042-5046 | a line that does not read as name and value is refused |
| DispositionLimits.DispositionReadsBackIff | include/kivitree_utils/httplib.h:4918-5318 | for all entries, the disposition line the serializer writes is read back as name and file name exactly if both are field text without semicolons and equals signs: the parser splits inside quotes too |
| MultipartHeaders.DispositionIsHeader | include/kivitree_utils/httplib.h:5275-5291 | a disposition line written for plain names passes as a header line and its parameters are found |
| MultipartHeaders.ReadsParams | include/kivitree_utils/httplib.h:4918-4940 | the parameters written are read back in order |
| MultipartHeaders.ReadsBack | include/kivitree_utils/httplib.h:5042-5089 | each header line the serializer writes is read back as the name, file name or type it was written from |
| MultipartRoundTrip.SerializedForm | include/kivitree_utils/httplib.h:5301-5318 | the serialized text seen from behind each boundary |
| MultipartRoundTrip.HeaderLinesOnTrack | include/kivitree_utils/httplib.h:5025-5095 | reading header lines announces each entry once, in order, wherever the text is cut |
| MultipartRoundTrip.BodyOnTrack | include/kivitree_utils/httplib.h:5096-5118 | content callbacks hand on exactly the bytes before the first delimiter, wherever the text is cut |
| MultipartRoundTrip.BoundaryOnTrack | include/kivitree_utils/httplib.h:5119-5135 | behind a boundary the parser goes on with the next entry or ends |
| MultipartRoundTrip.RunOnTrack | include/kivitree_utils/httplib.h:5005-5140 | a whole call of parse on any part of the text succeeds and stays on track |
| MultipartRoundTrip.MultipartRoundTrip | include/kivitree_utils/httplib.h:5005-5318 | what the serializer writes is read back exactly, in any pieces the first bytes of which are at least the whole opening boundary line |
| MultipartEnds.CompleteIffEndArrived | include/kivitree_utils/httplib.h:5005-5318 | of a serialized body no piece is refused, it counts as complete exactly if at most the last line end is missing, and then the entries are all there |
| MultipartEnds.StuckForGood | include/kivitree_utils/httplib.h:5119-5135 | behind a boundary with neither a line end nor dashes the parser takes every further piece and never delivers anything again |
| MultipartEnds.BadLineEndsBody | include/kivitree_utils/httplib.h:5042-5089 | a header line that is not taken makes parse fail at once, with no callback |
| MultipartEnds.ContentIsHandedOn | include/kivitree_utils/httplib.h:5096-5118 | after every call all of a content that has arrived is handed on, but for at most as many bytes as the delimiter has |
| MultipartOpening.OpeningIsLost | include/kivitree_utils/httplib.h:5012-5019 | a piece without the boundary line is thrown away while the parser waits for the opening |
| MultipartOpening.NextDelimiter | include/kivitree_utils/httplib.h:5301-5318 | in serialized text the next delimiter behind one stands behind the header lines of the entry between them |
| MultipartOpening.FoundLater | include/kivitree_utils/httplib.h:5012-5019 | a boundary line found elsewhere than at the start leaves the parser behind the headers of the first entry |
| MultipartOpening.MisledRun | include/kivitree_utils/httplib.h:5005-5140 | a parser that has missed the opening stays behind where the entries are through every whole call |
| MultipartOpening.MisledIsNotDone | include/kivitree_utils/httplib.h:5005-5140 | and has not delivered the entries when the text ends, whatever it takes for the end |
| MultipartOpening.RoundTripIffOpeningWhole | include/kivitree_utils/httplib.h:5012-5019 | for all entries and all splittings, the entries are read back exactly if the first bytes to arrive are at least the whole opening boundary line |
| MultipartLimits.BeforeAwaits | include/kivitree_utils/httplib.h:5005-5140 | fed everything in front of any header line of any entry, the parser awaits that line |
| MultipartLimits.LongLineRefused | include/kivitree_utils/httplib.h:5025-5027 | for every header line of 8192 bytes or more there is a splitting that is refused, although its first piece holds the opening |
| MultipartLimits.RoundTripIffLinesShort | include/kivitree_utils/httplib.h:5025-5027 | entries are read back from every splitting with a whole opening exactly if each of their header lines is shorter than 8192 bytes |
| MultipartLimits.FullLengthLineRefused | include/kivitree_utils/httplib.h:5025-5027 | an opening and a header line of 8192 bytes or more are refused when only the first byte of the line end has arrived |
| FormFiles.ByNameKeepsOrder | include/kivitree_utils/httplib.h:6816-6822 | the form is ordered by name, and entries with the same name keep the order of the body |
| FormFiles.RunOpens | include/kivitree_utils/httplib.h:5005-5140 | content callbacks come only after the header callback of an entry |
| FormFiles.Files.Header | include/kivitree_utils/httplib.h:6816-6822 | puts a new entry into the form under its name, or refuses it when there are 1024 already |
| FormFiles.Files.Content | include/kivitree_utils/httplib.h:6823-6828 | the bytes go to the entry whose headers came last, wherever it stands in the form |
| FormFiles.Files.Receive | include/kivitree_utils/httplib.h:6815-6828 | callbacks are accepted exactly if they announce at most 1024 entries; then the form holds the entries they describe |
| FormFiles.ReadForm | include/kivitree_utils/httplib.h:6852-6902 | a body read piece by piece gives the form of its entries exactly if parsing succeeds, ends at the last boundary and finds at most 1024 entries |
| FormFiles.FormRoundTrip | include/kivitree_utils/httplib.h:6804-6902 | serialized entries of which some bytes are missing at the end come back as the form that holds them by name exactly if at most the last line end is missing and there are at most 1024 of them |
| HeaderFields.IsFieldValue | include/kivitree_utils/httplib.h:2688-2713 | decides well-formed field values |
| HeaderFields.ParseHeader | include/kivitree_utils/httplib.h:4304-4350 | the name and the decoded value of a well-formed header line, or nothing |
| HeaderFields.HeaderLineIff | include/kivitree_utils/httplib.h:4304-4350 | the lines taken are exactly those that consist of a name, a colon and a value with any blanks around it |
| HeaderFields.FieldIs | include/kivitree_utils/httplib.h:4339-4344 | such a line gives that name with that value, percent codes decoded unless the name is Location or Referer in letters of either case |
| HeaderFields.CodedFieldReadsBack | include/kivitree_utils/httplib.h:4339-4344 | a percent-coded value is read back as the value it was coded from, that of Location and Referer as it is written |
| HeaderFields.FieldReadsBack | include/kivitree_utils/httplib.h:4304-4350 | a field written as name, colon, blank and value is read back if decoding does not change its value |
| MultipartParser.ParseDispositionParams | include/kivitree_utils/httplib.h:4918-4940 | the parameters in order, repeated texts skipped |
| MultipartParser.MultipartFormDataParser.constructor | include/kivitree_utils/httplib.h:4993-5001 | a fresh parser for a boundary |
| MultipartParser.MultipartFormDataParser.StartWith | include/kivitree_utils/httplib.h:5171-5179 | whether the buffer continues with a text at a position |
| MultipartParser.MultipartFormDataParser.BufFind | include/kivitree_utils/httplib.h:5190-5212 | the first occurrence of a text in the buffer, or the buffer size |
| MultipartParser.MultipartFormDataParser.BufAppend | include/kivitree_utils/httplib.h:5213-5229 | moving, resizing and copying in place append to the byte sequence the buffer stands for |
| MultipartParser.MultipartFormDataParser.BufErase | include/kivitree_utils/httplib.h:5231 | takes bytes off the front |
| MultipartParser.MultipartFormDataParser.ReadHeaderLine | include/kivitree_utils/httplib.h:5042-5089 | what one header line does to the entry being read, errors included |
| MultipartParser.MultipartFormDataParser.ReadHeaders | include/kivitree_utils/httplib.h:5025-5095 | the inner loop over header lines refines the specification |
| MultipartParser.MultipartFormDataParser.ReadBody | include/kivitree_utils/httplib.h:5096-5118 | state 3 refines the specification |
| MultipartParser.MultipartFormDataParser.ReadBoundary | include/kivitree_utils/httplib.h:5119-5135 | state 4 refines the specification |
| MultipartParser.MultipartFormDataParser.Round | include/kivitree_utils/httplib.h:5011-5137 | one round of the state loop refines one step |
| MultipartParser.MultipartFormDataParser.Parse | include/kivitree_utils/httplib.h:5005-5141 | parse on the in-place buffer is the run of the specification: new state, callbacks and verdict |
| Streams.SocketStream.Read | include/kivitree_utils/httplib.h:6130-6174 | hands out the next bytes of the stream, at most as many as asked, and nothing only at its end or when a wait fails; no byte is lost either way |
| Streams.ReadAll | include/kivitree_utils/httplib.h:6130-6174 | the results of any reads of any sizes, followed by what is still buffered or to come, are the stream, whenever waits fail in between |
| Streams.StreamLineReader.Append | include/kivitree_utils/httplib.h:3123-3134 | appends a byte to the line across the fixed and the growing buffer |
| Streams.StreamLineReader.EndWithCrlf | include/kivitree_utils/httplib.h:3078-3081 | whether the line ends with a line end |
| Streams.StreamLineReader.Getline | include/kivitree_utils/httplib.h:3083-3121 | the shortest next text through a line end, or the rest of a stream that ends; a line that reaches 32768 bytes unfinished, or in which a wait fails, is refused, and no byte behind what was read is lost |
| Lines.LinesReadBack | include/kivitree_utils/httplib.h:3083-3121 | reading line by line gives the lines of a text one by one; an unfinished last line counts exactly if the stream ends there, and one that is too long stops the reader |
| Lines.EveryTextIsLines | include/kivitree_utils/httplib.h:3083-3121 | every text is such lines followed by one unfinished or none |
| Chunked.FromIToHex | include/kivitree_utils/httplib.h:2758-2766 | the loop computes the hexadecimal form |
| Chunked.ReadContentWithLength | include/kivitree_utils/httplib.h:4391-4411 | hands on exactly the given number of bytes, or failure and all there are before the end or a failing wait |
| Chunked.ReadContentChunked | include/kivitree_utils/httplib.h:4440-4504 | the reader on a buffered socket with arbitrary portions and failing waits computes the decoding function: verdict, data, trailer fields and what is left on the stream |
| Chunked.ReadTrailer | include/kivitree_utils/httplib.h:4486-4504 | reads trailer lines up to an empty one and records the fields of the well-formed ones |
| Chunked.WriteData | include/kivitree_utils/httplib.h:4642-4650 | all the bytes reach the stream, or some of them and failure |
| Chunked.DataSink.Write | include/kivitree_utils/httplib.h:4742-4764 | a write emits one chunk, or nothing and ends the loop when it is empty; after a failure nothing happens any more |
| Chunked.DataSink.DoneWithTrailer | include/kivitree_utils/httplib.h:4768-4809 | done emits the last chunk, the trailer and the empty line |
| Chunked.WriteContentChunked | include/kivitree_utils/httplib.h:4733-4830 | success means that everything the provider wrote has been sent, unless the server was shutting down; a failed write or a provider that gives up ends the loop with its error |
| ChunkSizes.HexIsHex | include/kivitree_utils/httplib.h:2758-2766 | the digits written spell the number |
| ChunkSizes.SizeIsItsDigits | include/kivitree_utils/httplib.h:4450-4455 | a size line of white space, sign, prefix and digits, in either case and with any leading zeros, gives the number of its digits, modulo sign and limited to 64 bits, whatever follows: blanks, extensions, the line end |
| ChunkSizes.NoDigitNoSize | include/kivitree_utils/httplib.h:4450-4455 | a line without a digit there gives no number |
| ChunkSizes.SizeLineReadsBack | include/kivitree_utils/httplib.h:4450-4457 | parsing the size line inverts writing it for every size below the error value |
| ChunkedGrammar.AcceptedIffMessage | include/kivitree_utils/httplib.h:4440-4504 | the reader accepts a stream exactly if it begins with chunks in front of a last size line of 0 and either a trailer ended by an empty line or no further line, and then gives the data, the fields and what is left; a missing trailer is accepted |
| ChunkedGrammar.ChunkInFront | include/kivitree_utils/httplib.h:4448-4476 | a whole chunk in front adds its data to whatever is made of the rest, failures included |
| ChunkedGrammar.CutChunk | include/kivitree_utils/httplib.h:4459-4463 | a chunk that is cut off gives the bytes there are and failure |
| ChunkedGrammar.BadSize | include/kivitree_utils/httplib.h:4450-4457 | a size line without a number, or with the largest one, is refused and nothing behind it is read |
| ChunkedGrammar.FieldOfLine | include/kivitree_utils/httplib.h:4486-4504 | what a trailer line gives: its field if it reads as one, nothing otherwise |
| ChunkedRoundTrip.TrailerReadsBack | include/kivitree_utils/httplib.h:4486-4504 | trailer lines are read back as the fields they were written from |
| ChunkedRoundTrip.ChunkedRoundTrip | include/kivitree_utils/httplib.h:4440-4504 | reading what was written gives the data and the trailer and leaves what follows on the stream alone |
| ChunkedRoundTrip.OutputIsAll | include/kivitree_utils/httplib.h:4815-4826 | however writes are spread over provider calls, all of them reach the stream |
| ChunkedRoundTrip.WrittenChunksReadBack | include/kivitree_utils/httplib.h:4440-4830 | non-empty writes followed by done with a trailer are read back as their concatenation and the fields of the trailer |
| Ranges.RangeError | include/kivitree_utils/httplib.h:5320-5384 | false exactly if there is nothing to check, or there are at most 1024 ranges and they stand for acceptable ones; then each has been rewritten in place to the positions it asks for: the last n bytes, everything from a position on, or what it names |
| Ranges.Rewrite | include/kivitree_utils/httplib.h:5336-5361 | one range is replaced by the positions it asks for, and no other range changes |
| Ranges.RangeCheck | include/kivitree_utils/httplib.h:5363-5379 | the three checks on a range decide whether the ranges so far are acceptable |
| Ranges.AcceptableIff | include/kivitree_utils/httplib.h:5363-5379 | acceptable are ranges within the content, each beginning behind the one before, of which at most two begin inside an earlier one |
| RangeAnswers.RequestMeans | include/kivitree_utils/httplib.h:5336-5361 | in bytes of the content: (-1, n) is its last n, (f, -1) and (f, l) with l beyond the end all from f on, (f, l) those from f to l, (-1, -1) all |
| RangeAnswers.RequestIsSatisfiableIff | include/kivitree_utils/httplib.h:5336-5367 | the requests that mean some bytes are exactly (-1, -1) on a content that is not empty, (-1, n) with n from 1 to its length, and (f, l) with f inside it and l missing or not before f |
| Ranges.OffsetAndLength | include/kivitree_utils/httplib.h:5386-5394 | an accepted range lies within the content |
| Ranges.AcceptedRangesAreBounded | include/kivitree_utils/httplib.h:5363-5379 | an accepted request asks for at most three times the content |
| Ranges.MakeMultipartRangesData | include/kivitree_utils/httplib.h:5410-5459 | the answer: one part per range, then the end boundary |
| RangeAnswers.ContentRangeReadsBack | include/kivitree_utils/httplib.h:5396-5408 | first position, last position and content length are read back from the field of a part |
| RangeAnswers.AnswerReadsBack | include/kivitree_utils/httplib.h:5410-5459 | a client that reads the answer part by part, taking as many bytes as the positions say, gets for each range its content type, its positions, the content length and exactly the bytes of the content at those positions |
| Ranges.GetMultipartRangesDataLength | include/kivitree_utils/httplib.h:5461-5479 | the length computed without the content is the size of the answer built from it |
| Ranges.SizeIgnoresContent | include/kivitree_utils/httplib.h:5461-5479 | that size depends on the content only through its length |

## Left out

- Sockets, connections, JSON text and the message classes: messages are values on queues.
- The Paxos messages: their handlers are empty (src/kivitree_paxos/paxos_node.cpp:220-254).
- `TrieIndex`: no implementation is in the repository.
- Data races inside the LRU engine and the node tables (`put`, `get`, `remove` take no lock): each operation is one step.
- Successor.SuccessorHealsIff: starts where the old leader's data has been consumed or lost on its links to the successor and the follower; what data of the old leader can do that is still in flight is `Takeover.NewWritesSurviveIff`.
- A second failover: the callback compares with the initial leader only, so nothing is claimed after the first successor fails.
- Membership that changes: runs of the whole cluster have static tables; `LeafFacts.TablesStayConsistent` covers one node with senders that were not registered.
- `remove_node`, `is_node_alive`, `join_cluster`, logging, table printing, `server.cpp`, `main.cpp`, REST routing and the `KiviTree` wrapper around the LRU engine.
- LRU capacity 0: `put` then reads the back of an empty list.
- Fairness and running times of cluster steps: failover is stated for the scan that takes place, not for when it does.
- Callbacks that refuse, other than for the server's limit on the number of form entries; body and content size limits.
- Compression, TLS, the HTTP client, redirects, file serving, and platform code.
- Jobs of the worker pool that throw.
- `parse_range_header`, the parser of the Range header: `RangeError` takes any ranges.
