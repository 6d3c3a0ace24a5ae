/** The cluster never looks at the values it replicates: attaching to every written value its place in the
    run changes nothing, and every run is what is left of such a dated run. */
module Erasure {
  import opened Lists
  import opened Lru
  import opened LruStore
  import opened Leaf
  import opened LeafFacts
  import opened Cluster
  import opened Replication

  /** A value together with the step of the run that wrote it. */
  datatype Dated<V> = Dated(value: V, step: int)

  // ----- Leaving out the dates -----

  function EraseMap<V>(m: map<string, Dated<V>>): map<string, V> {
    map k | k in m :: m[k].value
  }

  function EraseCache<V>(c: Cache<Dated<V>>): Cache<V> {
    Cache(c.capacity, c.order, EraseMap(c.kv))
  }

  function EraseOrder<V>(order: seq<(string, Dated<V>)>): (r: seq<(string, V)>)
    ensures |r| == |order|
  {
    seq(|order|, i requires 0 <= i < |order| => (order[i].0, order[i].1.value))
  }

  function ErasePayload<V>(payload: seq<(string, Dated<V>, int)>): (r: seq<(string, V, int)>)
    ensures |r| == |payload|
  {
    seq(|payload|, i requires 0 <= i < |payload| => (payload[i].0, payload[i].1.value, payload[i].2))
  }

  function EraseMessage<V>(m: Message<Dated<V>>): Message<V> {
    match m
    case HeartBeat(id, at, clusterType) => HeartBeat(id, at, clusterType)
    case Push(leader, at, key, value) => Push(leader, at, key, value.value)
    case SyncRequest(follower, lastSync) => SyncRequest(follower, lastSync)
    case SyncResponse(leader, follower, lastSync, at, payload) =>
      SyncResponse(leader, follower, lastSync, at, ErasePayload(payload))
    case SelfPromotion(leader, at) => SelfPromotion(leader, at)
  }

  function EraseQueue<V>(q: seq<Message<Dated<V>>>): (r: seq<Message<V>>)
    ensures |r| == |q|
  {
    seq(|q|, i requires 0 <= i < |q| => EraseMessage(q[i]))
  }

  function EraseSends<V>(sends: seq<Send<Dated<V>>>): (r: seq<Send<V>>)
    ensures |r| == |sends|
  {
    seq(|sends|, i requires 0 <= i < |sends| => Send(sends[i].destination, EraseMessage(sends[i].message)))
  }

  function EraseLeaf<V>(l: LeafState<Dated<V>>): LeafState<V> {
    LeafState(l.nodeId, l.role, l.currentLeaderId, l.syncTarget, l.lastSyncTime, l.localClusterLeader,
              l.localNodes, l.clusterNodes, EraseCache(l.store))
  }

  function EraseResult<V>(r: (LeafState<Dated<V>>, seq<Send<Dated<V>>>)): (LeafState<V>, seq<Send<V>>) {
    (EraseLeaf(r.0), EraseSends(r.1))
  }

  function EraseNet<V>(net: Network<Dated<V>>): Network<V> {
    map link | link in net :: EraseQueue(net[link])
  }

  function EraseSystem<V>(s: System<Dated<V>>): System<V> {
    System(s.now, map i | i in s.leaf :: EraseLeaf(s.leaf[i]), s.up, s.lastSent, EraseNet(s.net))
  }

  function EraseAction<V>(a: Action<Dated<V>>): Action<V> {
    match a
    case Tick(elapsed) => Tick(elapsed)
    case Beat(node, clusterType) => Action.Beat(node, clusterType)
    case ScanTables(node) => ScanTables(node)
    case Deliver(f, t, order) => Deliver(f, t, EraseOrder(order))
    case Write(node, key, value, emptyValue) => Write(node, key, value.value, emptyValue)
    case Read(node, key) => Read(node, key)
    case Start(node) => Start(node)
    case Drop(f, t, position) => Drop(f, t, position)
    case Crash(node) => Crash(node)
  }

  // ----- Stores -----

  lemma InsertErased<V>(c: Cache<Dated<V>>, k: string, v: Dated<V>)
    ensures EraseCache(Insert(c, k, v)) == Insert(EraseCache(c), k, v.value)
  {
    assert EraseMap(c.kv[k := v]) == EraseMap(c.kv)[k := v.value];
    var e := Evicted(c);
    if |c.order| >= c.capacity && c.order != [] {
      assert EraseMap(c.kv - {Last(c.order)}) == EraseMap(c.kv) - {Last(c.order)};
    }
    assert EraseMap(e.kv[k := v]) == EraseMap(e.kv)[k := v.value];
  }

  lemma {:induction false} LoadErased<V>(c: Cache<Dated<V>>, order: seq<(string, Dated<V>)>)
    ensures EraseCache(Load(c, order)) == Load(EraseCache(c), EraseOrder(order))
  {
    hide Insert, EraseCache;
    if order == [] {
    } else {
      assert Init(EraseOrder(order)) == EraseOrder(Init(order));
      LoadErased(c, Init(order));
      InsertErased(Load(c, Init(order)), Last(order).0, Last(order).1);
    }
  }

  lemma {:induction false} PayloadMapErased<V>(payload: seq<(string, Dated<V>, int)>)
    ensures EraseMap(PayloadMap(payload)) == PayloadMap(ErasePayload(payload))
  {
    if payload == [] {
    } else {
      assert Init(ErasePayload(payload)) == ErasePayload(Init(payload));
      PayloadMapErased(Init(payload));
    }
  }

  lemma StampedErased<V>(order: seq<(string, Dated<V>)>, now: int)
    ensures ErasePayload(Stamped(order, now)) == Stamped(EraseOrder(order), now)
  {
  }

  // ----- One node -----

  lemma SendsConcat<V>(a: seq<Send<Dated<V>>>, b: seq<Send<Dated<V>>>)
    ensures EraseSends(a + b) == EraseSends(a) + EraseSends(b)
  {
  }

  lemma SingleErased<V>(destination: int, m: Message<Dated<V>>)
    ensures EraseSends([Send(destination, m)]) == [Send(destination, EraseMessage(m))] && EraseSends<V>([]) == []
  {
  }

  lemma {:induction false} ToLivePeersErased<V>(nodes: seq<Descriptor>, self: int, m: Message<Dated<V>>)
    ensures EraseSends(ToLivePeers(nodes, self, m)) == ToLivePeers(nodes, self, EraseMessage(m))
  {
    if nodes == [] {
    } else {
      ToLivePeersErased(Init(nodes), self, m);
    }
  }

  lemma {:induction false} ToPeersErased<V>(nodes: seq<Descriptor>, self: int, m: Message<Dated<V>>)
    ensures EraseSends(ToPeers(nodes, self, m)) == ToPeers(nodes, self, EraseMessage(m))
  {
    if nodes == [] {
    } else {
      ToPeersErased(Init(nodes), self, m);
    }
  }

  lemma HeartBeatsErased<V>(l: LeafState<Dated<V>>, now: int, clusterType: int)
    ensures EraseSends(HeartBeats(l, now, clusterType)) == HeartBeats(EraseLeaf(l), now, clusterType)
  {
    ToPeersErased<V>(l.clusterNodes, l.nodeId, HeartBeat(l.nodeId, now, 1));
    ToPeersErased<V>(l.localNodes, l.nodeId, HeartBeat(l.nodeId, now, clusterType));
  }

  lemma PromotionErased<V>(l: LeafState<Dated<V>>, now: int)
    ensures EraseResult(TrySelfPromote(l, now)) == TrySelfPromote(EraseLeaf(l), now)
  {
    hide SomeAlive, LowestAlive;
    ToLivePeersErased<V>(l.localNodes, l.nodeId, SelfPromotion(l.nodeId, now));
  }

  lemma ScanStepErased<V>(l: LeafState<Dated<V>>, i: nat, now: int)
    requires i < |l.localNodes|
    ensures EraseResult(ScanStep(l, i, now)) == ScanStep(EraseLeaf(l), i, now)
  {
    hide TrySelfPromote;
    PromotionErased(l.(localNodes := l.localNodes[i := ScanEntry(l.localNodes[i], l.nodeId, now)]), now);
  }

  lemma {:induction false} ScanFromErased<V>(l: LeafState<Dated<V>>, i: nat, now: int)
    ensures EraseResult(ScanFrom(l, i, now)) == ScanFrom(EraseLeaf(l), i, now)
    decreases |l.localNodes| - i
  {
    hide ScanStep;
    if i >= |l.localNodes| {
    } else {
      var (acted, sent) := ScanStep(l, i, now);
      ScanStepErased(l, i, now);
      ScanStepKeepsLength(l, i, now);
      ScanFromErased(acted, i + 1, now);
      SendsConcat(sent, ScanFrom(acted, i + 1, now).1);
    }
  }

  lemma ScanStepKeepsLength<V>(l: LeafState<V>, i: nat, now: int)
    requires i < |l.localNodes|
    ensures |ScanStep(l, i, now).0.localNodes| == |l.localNodes|
  {
  }

  lemma HandleErased<V>(l: LeafState<Dated<V>>, m: Message<Dated<V>>, now: int, order: seq<(string, Dated<V>)>)
    ensures EraseResult(Handle(l, m, now, order)) == Handle(EraseLeaf(l), EraseMessage(m), now, EraseOrder(order))
  {
    hide Insert, Load, EraseCache, IndexFrom, Stamped, EraseSends;
    SingleErased<V>(l.syncTarget, SyncRequest(l.nodeId, l.lastSyncTime));
    match m
    case HeartBeat(_, _, _) =>
    case Push(_, _, key, value) => InsertErased(l.store, key, value);
    case SyncRequest(follower, _) =>
      StampedErased(order, now);
      var i := IndexOfNode(l.localNodes, follower);
      if i < |l.localNodes| {
        SingleErased(follower, SyncResponse(l.nodeId, follower, l.localNodes[i].lastSync, now, Stamped(order, now)));
      }
    case SyncResponse(_, _, _, _, _) => LoadErased(l.store, order);
    case SelfPromotion(leader, _) => SingleErased<V>(leader, SyncRequest(l.nodeId, l.lastSyncTime));
  }

  lemma IteratedErased<V>(l: LeafState<Dated<V>>, m: Message<Dated<V>>)
    ensures EraseMap(Iterated(l, m)) == Iterated(EraseLeaf(l), EraseMessage(m))
  {
    match m
    case SyncResponse(_, _, _, _, payload) => PayloadMapErased(payload);
    case _ =>
  }

  // ----- One step of the cluster -----

  lemma QueueErased<V>(net: Network<Dated<V>>, f: int, t: int)
    ensures EraseQueue(Queue(net, f, t)) == Queue(EraseNet(net), f, t)
  {
  }

  lemma {:induction false} DispatchErased<V>(net: Network<Dated<V>>, sender: int, sends: seq<Send<Dated<V>>>)
    ensures EraseNet(Dispatch(net, sender, sends)) == Dispatch(EraseNet(net), sender, EraseSends(sends))
  {
    hide EraseMessage;
    if sends == [] {
    } else {
      var last := Last(sends);
      assert Init(EraseSends(sends)) == EraseSends(Init(sends));
      DispatchErased(net, sender, Init(sends));
      var n := Dispatch(net, sender, Init(sends));
      LinkErased(n, sender, last.destination, Queue(n, sender, last.destination) + [last.message]);
      QueueErased(n, sender, last.destination);
      assert EraseQueue(Queue(n, sender, last.destination) + [last.message])
          == EraseQueue(Queue(n, sender, last.destination)) + [EraseMessage(last.message)];
    }
  }

  lemma LinkErased<V>(net: Network<Dated<V>>, f: int, t: int, q: seq<Message<Dated<V>>>)
    ensures EraseNet(net[(f, t) := q]) == EraseNet(net)[(f, t) := EraseQueue(q)]
  {
  }

  lemma LocalErased<V>(s: System<Dated<V>>, a: Action<Dated<V>>)
    requires IsLocal(a) && a.node in s.leaf
    requires a.Deliver? ==> Queue(s.net, a.sender, a.node) != []
    ensures var b := EraseAction(a);
            && IsLocal(b) && b.node == a.node && b.node in EraseSystem(s).leaf
            && (b.Deliver? ==> Queue(EraseSystem(s).net, b.sender, b.node) != [])
            && EraseResult(Local(s, a)) == Local(EraseSystem(s), b)
  {
    hide Scan, Handle, HeartBeats, EraseLeaf, EraseNet, EraseQueue, Queue, ClientPut, ClientGet, Boot, EraseOrder;
    var l := s.leaf[a.node];
    match a
    case Beat(_, clusterType) => HeartBeatsErased(l, s.now, clusterType);
    case ScanTables(_) => ScanErased(l, s.now);
    case Deliver(f, t, order) =>
      QueueErased(s.net, f, t);
      HeadErased(Queue(s.net, f, t));
      HandleErased(l, Queue(s.net, f, t)[0], s.now, order);
    case Write(_, key, value, emptyValue) => PutErased(l, key, value, emptyValue, s.now);
    case Read(_, key) => GetErased(l, key);
    case Start(_) => BootErased(l);
  }

  lemma HeadErased<V>(q: seq<Message<Dated<V>>>)
    requires q != []
    ensures EraseQueue(q) != [] && EraseQueue(q)[0] == EraseMessage(q[0]) && EraseQueue(q[1..]) == EraseQueue(q)[1..]
  {
  }

  lemma ScanErased<V>(l: LeafState<Dated<V>>, now: int)
    ensures EraseResult(Scan(l, now)) == Scan(EraseLeaf(l), now)
  {
    ScanFromErased(ClusterScanned(l, now), 0, now);
  }

  lemma PutErased<V>(l: LeafState<Dated<V>>, key: string, value: Dated<V>, emptyValue: bool, now: int)
    ensures var r, r' := ClientPut(l, key, value, emptyValue, now),
            ClientPut(EraseLeaf(l), key, value.value, emptyValue, now);
            EraseLeaf(r.0) == r'.0 && EraseSends(r.1) == r'.1
  {
    InsertErased(l.store, key, value);
    ToLivePeersErased(l.localNodes, l.nodeId, Push(l.nodeId, now, key, value));
  }

  lemma GetErased<V>(l: LeafState<Dated<V>>, key: string)
    ensures EraseLeaf(ClientGet(l, key).0) == ClientGet(EraseLeaf(l), key).0
  {
  }

  lemma BootErased<V>(l: LeafState<Dated<V>>)
    ensures EraseResult(Boot(l)) == Boot(EraseLeaf(l))
  {
    hide EraseSends, IndexFrom;
    SingleErased<V>(l.currentLeaderId, SyncRequest(l.nodeId, l.lastSyncTime));
  }

  /** A step on dated values is, without the dates, the same step on the values. */
  lemma StepErased<V>(s: System<Dated<V>>, a: Action<Dated<V>>)
    requires Enabled(s, a) && Enabled(EraseSystem(s), EraseAction(a))
    ensures EraseSystem(Apply(s, a)) == Apply(EraseSystem(s), EraseAction(a))
  {
    hide Local, Dispatch, EraseLeaf, EraseNet, EraseQueue, Queue, EraseOrder;
    if IsLocal(a) {
      var (l, sends) := Local(s, a);
      LocalErased(s, a);
      ConsumedErased(s, a);
      DispatchErased(Consumed(s, a), a.node, sends);
    } else if a.Drop? {
      var q := Queue(s.net, a.sender, a.node);
      QueueErased(s.net, a.sender, a.node);
      LostErased(q, a.position);
      LinkErased(s.net, a.sender, a.node, q[..a.position] + q[a.position + 1..]);
    }
  }

  lemma LostErased<V>(q: seq<Message<Dated<V>>>, i: nat)
    requires i < |q|
    ensures EraseQueue(q[..i] + q[i + 1..]) == EraseQueue(q)[..i] + EraseQueue(q)[i + 1..]
  {
  }

  lemma ConsumedErased<V>(s: System<Dated<V>>, a: Action<Dated<V>>)
    requires a.Deliver? ==> Queue(s.net, a.sender, a.node) != []
    ensures var b := EraseAction(a);
            && (b.Deliver? ==> Queue(EraseSystem(s).net, b.sender, b.node) != [])
            && EraseNet(Consumed(s, a)) == Consumed(EraseSystem(s), b)
  {
    hide EraseLeaf, EraseNet, EraseQueue, Queue, EraseOrder;
    if a.Deliver? {
      var q := Queue(s.net, a.sender, a.node);
      QueueErased(s.net, a.sender, a.node);
      HeadErased(q);
      LinkErased(s.net, a.sender, a.node, q[1..]);
    }
  }

  // ----- Attaching the dates -----

  function DateOrder<V>(order: seq<(string, V)>, m: map<string, Dated<V>>): (r: seq<(string, Dated<V>)>)
    requires forall i :: 0 <= i < |order| ==> order[i].0 in m
    ensures |r| == |order|
  {
    seq(|order|, i requires 0 <= i < |order| => (order[i].0, m[order[i].0]))
  }

  lemma DateOrderEnumerates<V>(order: seq<(string, V)>, m: map<string, Dated<V>>)
    requires Enumerates(order, EraseMap(m))
    ensures forall i :: 0 <= i < |order| ==> order[i].0 in m
    ensures Enumerates(DateOrder(order, m), m) && EraseOrder(DateOrder(order, m)) == order
  {
    assert Keys(DateOrder(order, m)) == Keys(order);
  }

  /** Every step on the values is a step on dated values, in which a write carries its own date. */
  lemma DatedStep<V>(s: System<Dated<V>>, a: Action<V>, step: int) returns (d: Action<Dated<V>>)
    requires Enabled(EraseSystem(s), a)
    ensures Enabled(s, d) && EraseAction(d) == a && EraseSystem(Apply(s, d)) == Apply(EraseSystem(s), a)
    ensures d.Write? ==> d.value.step == step
  {
    hide Apply, EraseLeaf, EraseNet, EraseQueue, Queue, EraseOrder, Enumerates;
    match a {
      case Tick(elapsed) => d := Tick(elapsed);
      case Beat(node, clusterType) => d := Action.Beat(node, clusterType);
      case ScanTables(node) => d := ScanTables(node);
      case Write(node, key, value, emptyValue) => d := Write(node, key, Dated(value, step), emptyValue);
      case Read(node, key) => d := Read(node, key);
      case Start(node) => d := Start(node);
      case Crash(node) => d := Crash(node);
      case Drop(f, t, position) =>
        QueueErased(s.net, f, t);
        d := Drop(f, t, position);
      case Deliver(f, t, order) =>
        QueueErased(s.net, f, t);
        HeadErased(Queue(s.net, f, t));
        var m := Iterated(s.leaf[t], Queue(s.net, f, t)[0]);
        IteratedErased(s.leaf[t], Queue(s.net, f, t)[0]);
        DateOrderEnumerates(order, m);
        d := Deliver(f, t, DateOrder(order, m));
    }
    StepErased(s, d);
  }

  function DateLeaf<V>(l: LeafState<V>): LeafState<Dated<V>> {
    LeafState(l.nodeId, l.role, l.currentLeaderId, l.syncTarget, l.lastSyncTime, l.localClusterLeader,
              l.localNodes, l.clusterNodes, Cache(l.store.capacity, l.store.order, map[]))
  }

  function DateStart<V>(s: System<V>): System<Dated<V>> {
    System(s.now, map i | i in s.leaf :: DateLeaf(s.leaf[i]), s.up, s.lastSent, map[])
  }

  lemma DatedLeaf<V(!new)>(l: LeafState<V>, i: int, leader: int, members: set<int>)
    requires FreshLeaf(l, leader) && StaticLeaf(l, i, leader, members)
    ensures FreshLeaf(DateLeaf(l), leader) && StaticLeaf(DateLeaf(l), i, leader, members)
    ensures EraseLeaf(DateLeaf(l)) == l
  {
    assert EraseMap<V>(map[]) == map[];
  }

  /** The start of a run holds no values. */
  lemma DatedStart<V(!new)>(s: System<V>, leader: int)
    requires Initial(s, leader)
    ensures Initial(DateStart(s), leader) && EraseSystem(DateStart(s)) == s
  {
    StartLeaves(s, leader);
    StartErased(s, leader);
    hide FreshLeaf, StaticLeaf, DateLeaf, EraseSystem;
    var d := DateStart(s);
    assert d.leaf.Keys == s.leaf.Keys;
    forall i, j | i in d.leaf && j in d.leaf
      ensures Registered(d.leaf[i].localNodes, j) && Entry(d.leaf[i], j).isAlive
      ensures d.lastSent[j] <= Entry(d.leaf[i], j).lastSeen <= d.now
    {
      DatedEntry(s, leader, i, j);
    }
  }

  lemma StartLeaves<V(!new)>(s: System<V>, leader: int)
    requires Initial(s, leader)
    ensures StaticLeaves(DateStart(s), leader)
    ensures forall i :: i in DateStart(s).leaf ==> FreshLeaf(DateStart(s).leaf[i], leader)
  {
    hide FreshLeaf, StaticLeaf, DateLeaf;
    assert DateStart(s).leaf.Keys == s.leaf.Keys;
    forall i | i in s.leaf
      ensures FreshLeaf(DateLeaf(s.leaf[i]), leader) && StaticLeaf(DateLeaf(s.leaf[i]), i, leader, s.leaf.Keys)
    {
      assert StaticLeaf(s.leaf[i], i, leader, s.leaf.Keys);
      DatedLeaf(s.leaf[i], i, leader, s.leaf.Keys);
    }
  }

  lemma StartErased<V(!new)>(s: System<V>, leader: int)
    requires Initial(s, leader)
    ensures EraseSystem(DateStart(s)) == s
  {
    hide FreshLeaf, StaticLeaf, DateLeaf, EraseLeaf;
    forall i | i in s.leaf
      ensures EraseLeaf(DateLeaf(s.leaf[i])) == s.leaf[i]
    {
      assert StaticLeaf(s.leaf[i], i, leader, s.leaf.Keys);
      DatedLeaf(s.leaf[i], i, leader, s.leaf.Keys);
    }
    assert EraseNet<V>(map[]) == map[];
    assert EraseSystem(DateStart(s)).leaf == s.leaf;
  }

  lemma DatedEntry<V(!new)>(s: System<V>, leader: int, i: int, j: int)
    requires Initial(s, leader) && i in s.leaf && j in s.leaf
    ensures Registered(DateLeaf(s.leaf[i]).localNodes, j)
    ensures var d := Entry(DateLeaf(s.leaf[i]), j); d.isAlive && s.lastSent[j] <= d.lastSeen <= s.now
  {
    hide FreshLeaf;
    assert StaticLeaf(s.leaf[i], i, leader, s.leaf.Keys);
    assert Entry(DateLeaf(s.leaf[i]), j) == Entry(s.leaf[i], j);
  }

  // ----- Whole runs -----

  /** Each accepted write carries its own place in the run; nothing in the cluster reads it. */
  ghost predicate DatedRun<V>(states: seq<System<Dated<V>>>, actions: seq<Action<Dated<V>>>)
    requires |states| == |actions| + 1
  {
    forall n :: 0 <= n < |actions| && AcceptedWrite(states[n], actions[n]) ==> actions[n].value.step == n
  }

  /** A dated run and what is left of it without the dates. */
  ghost predicate Dates<V>(dated: seq<System<Dated<V>>>, datedActions: seq<Action<Dated<V>>>, states: seq<System<V>>,
                           actions: seq<Action<V>>) {
    && |dated| == |states| == |actions| + 1 && |datedActions| == |actions|
    && (forall n :: 0 <= n < |states| ==> EraseSystem(dated[n]) == states[n])
    && (forall n :: 0 <= n < |actions| ==> EraseAction(datedActions[n]) == actions[n])
  }

  /** Every run is a dated run without its dates. */
  lemma {:induction false} EveryRunHasDates<V(!new)>(states: seq<System<V>>, actions: seq<Action<V>>, leader: int)
    returns (dated: seq<System<Dated<V>>>, datedActions: seq<Action<Dated<V>>>)
    requires IsRun(states, actions) && Initial(states[0], leader)
    ensures Dates(dated, datedActions, states, actions)
    ensures IsRun(dated, datedActions) && Initial(dated[0], leader) && DatedRun(dated, datedActions)
    decreases |actions|
  {
    hide Initial, Enabled, Apply, EraseSystem, EraseAction;
    if actions == [] {
      DatedStart(states[0], leader);
      dated, datedActions := [DateStart(states[0])], [];
    } else {
      var n := |actions| - 1;
      var before, beforeActions := EveryRunHasDates(Init(states), Init(actions), leader);
      assert Enabled(states[n], actions[n]);
      var d := DatedStep(before[n], actions[n], n);
      dated, datedActions := before + [Apply(before[n], d)], beforeActions + [d];
      forall k | 0 <= k < n
        ensures Enabled(dated[k], datedActions[k]) && dated[k + 1] == Apply(dated[k], datedActions[k])
      {
        assert Enabled(before[k], beforeActions[k]);
      }
    }
  }
}
