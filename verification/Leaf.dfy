/** One leaf node: its membership tables, failure detector, promotion rule and message handlers.
    Written as functions on a value; module LeafNode holds the class that is proved against them. */
module Leaf {
  import opened Lists
  import opened Lru
  import opened LruStore

  /** Milliseconds between two heartbeats of a node, and between two scans. */
  const HEARTBEAT_PERIOD := 5000
  /** A peer not seen for longer than three periods is marked dead. */
  const HEARTBEAT_LIMIT := 3 * HEARTBEAT_PERIOD

  datatype Role = LocalLeader | PromotionReadyReplica

  datatype Descriptor = Descriptor(nodeId: int, lastSeen: int, lastSync: int, isAlive: bool)

  datatype Message<V> =
    | HeartBeat(nodeId: int, lastSeen: int, clusterType: int)
    | Push(leaderId: int, timestamp: int, key: string, value: V)
    | SyncRequest(followerId: int, lastSync: int)
    | SyncResponse(leaderId: int, followerId: int, lastSync: int, timestamp: int, payload: seq<(string, V, int)>)
    | SelfPromotion(leaderId: int, timestamp: int)

  datatype Send<V> = Send(destination: int, message: Message<V>)

  datatype LeafState<V> = LeafState(
    nodeId: int,
    role: Role,
    currentLeaderId: int,      // the node this leaf redirects writes to
    syncTarget: int,           // the node this leaf asks for snapshots
    lastSyncTime: int,
    localClusterLeader: int,   // the node whose failure triggers a promotion attempt
    localNodes: seq<Descriptor>,
    clusterNodes: seq<Descriptor>,
    store: Cache<V>)

  datatype PutReply = Accepted | Redirected(leaderId: int) | LeaderNotAvailable | MissingParameter

  // ----- Membership tables -----

  /** The first entry with an id, or the length of the table. */
  function IndexOfNode(nodes: seq<Descriptor>, id: int): (i: nat)
    ensures i <= |nodes|
    ensures i < |nodes| ==> nodes[i].nodeId == id
    ensures forall j :: 0 <= j < i ==> nodes[j].nodeId != id
  {
    IndexFrom(nodes, id, 0)
  }

  function IndexFrom(nodes: seq<Descriptor>, id: int, from: nat): (i: nat)
    requires from <= |nodes|
    ensures from <= i <= |nodes|
    ensures i < |nodes| ==> nodes[i].nodeId == id
    ensures forall j :: from <= j < i ==> nodes[j].nodeId != id
    decreases |nodes| - from
  {
    if from == |nodes| || nodes[from].nodeId == id then from else IndexFrom(nodes, id, from + 1)
  }

  predicate Registered(nodes: seq<Descriptor>, id: int) {
    IndexOfNode(nodes, id) < |nodes|
  }

  function Seen(d: Descriptor, at: int): Descriptor {
    d.(lastSeen := at, isAlive := true)
  }

  function Refreshed(nodes: seq<Descriptor>, id: int, at: int): seq<Descriptor>
    requires Registered(nodes, id)
  {
    nodes[IndexOfNode(nodes, id) := Seen(nodes[IndexOfNode(nodes, id)], at)]
  }

  /** A heartbeat refreshes the first entry of its sender, looking in the cluster table first;
      a sender in neither table is added to the one its message names. */
  function ReceiveHeartBeat<V>(l: LeafState<V>, id: int, at: int, clusterType: int, now: int): LeafState<V> {
    if Registered(l.clusterNodes, id) then l.(clusterNodes := Refreshed(l.clusterNodes, id, at))
    else if Registered(l.localNodes, id) then l.(localNodes := Refreshed(l.localNodes, id, at))
    else if clusterType == 1 then l.(clusterNodes := l.clusterNodes + [Descriptor(id, now, -1, true)])
    else l.(localNodes := l.localNodes + [Descriptor(id, now, -1, true)])
  }

  // ----- Promotion -----

  function CurrentLeader<V>(l: LeafState<V>): Option<Descriptor> {
    var i := IndexOfNode(l.localNodes, l.currentLeaderId);
    if i < |l.localNodes| then Some(l.localNodes[i]) else None
  }

  predicate SomeAlive(nodes: seq<Descriptor>, id: int) {
    exists i :: 0 <= i < |nodes| && nodes[i].nodeId == id && nodes[i].isAlive
  }

  /** The lowest of `start` and the ids of the live entries. */
  function LowestAlive(nodes: seq<Descriptor>, start: int): int {
    if nodes == [] then start
    else
      var before := LowestAlive(Init(nodes), start);
      if Last(nodes).isAlive && Last(nodes).nodeId < before then Last(nodes).nodeId else before
  }

  /** One message for every other live entry of the table. */
  function ToLivePeers<V>(nodes: seq<Descriptor>, self: int, m: Message<V>): seq<Send<V>> {
    if nodes == [] then []
    else if Last(nodes).nodeId != self && Last(nodes).isAlive
    then ToLivePeers(Init(nodes), self, m) + [Send(Last(nodes).nodeId, m)]
    else ToLivePeers(Init(nodes), self, m)
  }

  function TrySelfPromote<V>(l: LeafState<V>, now: int): (LeafState<V>, seq<Send<V>>) {
    if l.role != PromotionReadyReplica then (l, [])
    else if CurrentLeader(l).None? then (l, [])
    else if SomeAlive(l.localNodes, l.currentLeaderId) then (l, [])
    else if LowestAlive(l.localNodes, l.nodeId) != l.nodeId then (l, [])
    else (l.(currentLeaderId := l.nodeId, role := LocalLeader),
          ToLivePeers(l.localNodes, l.nodeId, SelfPromotion(l.nodeId, now)))
  }

  // ----- The failure detection scan -----

  predicate Overdue(d: Descriptor, now: int) {
    now - d.lastSeen > HEARTBEAT_LIMIT && d.isAlive
  }

  function ScanEntry(d: Descriptor, self: int, now: int): Descriptor {
    if d.nodeId == self then d.(isAlive := true)
    else if Overdue(d, now) then d.(isAlive := false)
    else d
  }

  function ScanTable(nodes: seq<Descriptor>, self: int, now: int): (r: seq<Descriptor>)
    ensures |r| == |nodes|
    ensures forall i :: 0 <= i < |nodes| ==> r[i] == ScanEntry(nodes[i], self, now)
  {
    seq(|nodes|, i requires 0 <= i < |nodes| => ScanEntry(nodes[i], self, now))
  }

  /** Entry i is the watched leader's, and the scan finds it overdue: on_leader_failure_detected is called. */
  predicate LeaderFails<V>(l: LeafState<V>, i: nat, now: int)
    requires i < |l.localNodes|
  {
    var d := l.localNodes[i];
    d.nodeId != l.nodeId && Overdue(d, now) && d.nodeId == l.localClusterLeader
  }

  /** The scan of entry i of the local table. */
  function ScanStep<V>(l: LeafState<V>, i: nat, now: int): (LeafState<V>, seq<Send<V>>)
    requires i < |l.localNodes|
  {
    var marked := l.(localNodes := l.localNodes[i := ScanEntry(l.localNodes[i], l.nodeId, now)]);
    if LeaderFails(l, i, now) then TrySelfPromote(marked, now) else (marked, [])
  }

  /** The scan of the local table from entry i on. The leader's failure is acted upon in the middle
      of the scan, while later entries still show their state from before it. */
  function ScanFrom<V>(l: LeafState<V>, i: nat, now: int): (LeafState<V>, seq<Send<V>>)
    decreases |l.localNodes| - i
  {
    if i >= |l.localNodes| then (l, [])
    else
      var (acted, sent) := ScanStep(l, i, now);
      var (rest, more) := ScanFrom(acted, i + 1, now);
      (rest, sent + more)
  }

  function Scan<V>(l: LeafState<V>, now: int): (LeafState<V>, seq<Send<V>>) {
    ScanFrom(l.(clusterNodes := ScanTable(l.clusterNodes, l.nodeId, now)), 0, now)
  }

  /** How often that scan calls on_leader_failure_detected. */
  function CallbacksFrom<V>(l: LeafState<V>, i: nat, now: int): nat
    decreases |l.localNodes| - i
  {
    if i >= |l.localNodes| then 0
    else (if LeaderFails(l, i, now) then 1 else 0) + CallbacksFrom(ScanStep(l, i, now).0, i + 1, now)
  }

  function Callbacks<V>(l: LeafState<V>, now: int): nat {
    CallbacksFrom(l.(clusterNodes := ScanTable(l.clusterNodes, l.nodeId, now)), 0, now)
  }

  // ----- Heartbeats -----

  /** One message for every other entry of the table, live or not. */
  function ToPeers<V>(nodes: seq<Descriptor>, self: int, m: Message<V>): seq<Send<V>> {
    if nodes == [] then []
    else ToPeers(Init(nodes), self, m) + if Last(nodes).nodeId != self then [Send(Last(nodes).nodeId, m)] else []
  }

  /** One heartbeat per peer. The cluster type of the messages to local peers is never assigned by the
      program, so it is a parameter here. */
  function HeartBeats<V>(l: LeafState<V>, now: int, clusterType: int): seq<Send<V>> {
    ToPeers(l.clusterNodes, l.nodeId, HeartBeat(l.nodeId, now, 1)) +
    ToPeers(l.localNodes, l.nodeId, HeartBeat(l.nodeId, now, clusterType))
  }

  // ----- Replication -----

  function PullLeaderData<V>(l: LeafState<V>): seq<Send<V>> {
    [Send(l.syncTarget, SyncRequest(l.nodeId, l.lastSyncTime))]
  }

  /** Values are of any type; whether the one in the request is the empty text comes along with it. */
  function ClientPut<V>(l: LeafState<V>, key: string, value: V, emptyValue: bool, now: int)
    : (LeafState<V>, seq<Send<V>>, PutReply)
  {
    if l.nodeId != l.currentLeaderId then
      (l, [], if CurrentLeader(l).Some? then Redirected(l.currentLeaderId) else LeaderNotAvailable)
    else if key == "" || emptyValue then (l, [], MissingParameter)
    else (l.(store := Insert(l.store, key, value)),
          ToLivePeers(l.localNodes, l.nodeId, Push(l.nodeId, now, key, value)),
          Accepted)
  }

  function ClientGet<V>(l: LeafState<V>, key: string): (LeafState<V>, Option<V>) {
    (l.(store := Touch(l.store, key)), Lookup(l.store, key))
  }

  /** The pairs a handler iterates over, in an order it does not choose. */
  function Iterated<V>(l: LeafState<V>, m: Message<V>): map<string, V> {
    match m
    case SyncRequest(_, _) => l.store.kv
    case SyncResponse(_, _, _, _, payload) => PayloadMap(payload)
    case _ => map[]
  }

  function Handle<V>(l: LeafState<V>, m: Message<V>, now: int, order: seq<(string, V)>)
    : (LeafState<V>, seq<Send<V>>)
  {
    match m
    case HeartBeat(id, at, clusterType) => (ReceiveHeartBeat(l, id, at, clusterType, now), [])
    case Push(_, timestamp, key, value) => (l.(store := Insert(l.store, key, value), lastSyncTime := timestamp), [])
    case SyncRequest(follower, _) =>
      var i := IndexOfNode(l.localNodes, follower);
      if i < |l.localNodes| then
        (l, [Send(follower, SyncResponse(l.nodeId, follower, l.localNodes[i].lastSync, now, Stamped(order, now)))])
      else (l, [])
    case SyncResponse(_, _, _, timestamp, _) => (l.(store := Load(l.store, order), lastSyncTime := timestamp), [])
    case SelfPromotion(leader, _) =>
      var target := if Registered(l.localNodes, leader) then leader else l.syncTarget;
      var l' := l.(currentLeaderId := leader, syncTarget := target);
      (l', PullLeaderData(l'))
  }

  /** Fetching the leader's data when the node starts. */
  function Boot<V>(l: LeafState<V>): (LeafState<V>, seq<Send<V>>) {
    if CurrentLeader(l).None? then (l, [])
    else
      var l' := l.(syncTarget := l.currentLeaderId);
      (l', if l'.nodeId != l'.syncTarget then PullLeaderData(l') else [])
  }
}
