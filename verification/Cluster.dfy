/** A local cluster of leaf nodes as a step system: node states, one queue of messages per directed
    link, a common clock and crash-stop failures. Each step of a node is one function of module Leaf. */
module Cluster {
  import opened Lists
  import opened Lru
  import opened Leaf
  import opened LeafFacts

  type Network<V> = map<(int, int), seq<Message<V>>>

  datatype System<V> = System(
    now: int,
    leaf: map<int, LeafState<V>>,
    up: set<int>,               // nodes that have not crashed
    lastSent: map<int, int>,    // when each node last sent its heartbeats
    net: Network<V>)            // messages in flight on each link (sender, receiver), oldest first

  datatype Action<V> =
    | Tick(elapsed: nat)
    | Beat(node: int, clusterType: int)
    | ScanTables(node: int)
    | Deliver(sender: int, node: int, order: seq<(string, V)>)
    | Write(node: int, key: string, value: V, emptyValue: bool)
    | Read(node: int, key: string)
    | Start(node: int)
    | Drop(sender: int, node: int, position: nat)
    | Crash(node: int)

  // ----- Links -----

  function Queue<V>(net: Network<V>, sender: int, receiver: int): seq<Message<V>> {
    if (sender, receiver) in net then net[(sender, receiver)] else []
  }

  function Dispatch<V>(net: Network<V>, sender: int, sends: seq<Send<V>>): Network<V> {
    if sends == [] then net
    else
      var n := Dispatch(net, sender, Init(sends));
      n[(sender, Last(sends).destination) := Queue(n, sender, Last(sends).destination) + [Last(sends).message]]
  }

  /** What a list of sends puts on the link to one receiver. */
  function Addressed<V>(sends: seq<Send<V>>, receiver: int): seq<Message<V>> {
    if sends == [] then []
    else if Last(sends).destination == receiver then Addressed(Init(sends), receiver) + [Last(sends).message]
    else Addressed(Init(sends), receiver)
  }

  lemma {:induction false} DispatchAppends<V(!new)>(net: Network<V>, sender: int, sends: seq<Send<V>>, f: int, t: int)
    ensures Queue(Dispatch(net, sender, sends), f, t) ==
            if f == sender then Queue(net, f, t) + Addressed(sends, t) else Queue(net, f, t)
  {
    if sends == [] {
    } else {
      DispatchAppends(net, sender, Init(sends), f, t);
    }
  }

  lemma {:induction false} AddressedIsSent<V(!new)>(sends: seq<Send<V>>, receiver: int)
    ensures forall m :: m in Addressed(sends, receiver) <==> Send(receiver, m) in sends
  {
    if sends == [] {
    } else {
      AddressedIsSent(Init(sends), receiver);
      assert sends == Init(sends) + [Last(sends)];
    }
  }

  lemma {:induction false} NothingAddressed<V(!new)>(sends: seq<Send<V>>, receiver: int)
    requires forall s :: s in sends ==> s.destination != receiver
    ensures Addressed(sends, receiver) == []
  {
    if sends == [] {
    } else {
      assert Last(sends) in sends;
      NothingAddressed(Init(sends), receiver);
    }
  }

  // ----- Steps -----

  predicate IsLocal<V>(a: Action<V>) {
    a.Beat? || a.ScanTables? || a.Deliver? || a.Write? || a.Read? || a.Start?
  }

  ghost predicate Enabled<V>(s: System<V>, a: Action<V>) {
    match a
    case Tick(_) => true
    case Drop(f, t, i) => i < |Queue(s.net, f, t)|
    case Deliver(f, t, order) =>
      t in s.up && t in s.leaf && Queue(s.net, f, t) != []
      && Enumerates(order, Iterated(s.leaf[t], Queue(s.net, f, t)[0]))
    case _ => a.node in s.up && a.node in s.leaf
  }

  /** What the acting node becomes and what it sends. */
  function Local<V>(s: System<V>, a: Action<V>): (LeafState<V>, seq<Send<V>>)
    requires IsLocal(a) && a.node in s.leaf
    requires a.Deliver? ==> Queue(s.net, a.sender, a.node) != []
  {
    var l := s.leaf[a.node];
    match a
    case Beat(_, clusterType) => (l, HeartBeats(l, s.now, clusterType))
    case ScanTables(_) => Scan(l, s.now)
    case Deliver(f, t, order) => Handle(l, Queue(s.net, f, t)[0], s.now, order)
    case Write(_, key, value, emptyValue) =>
      var r := ClientPut(l, key, value, emptyValue, s.now); (r.0, r.1)
    case Read(_, key) => (ClientGet(l, key).0, [])
    case Start(_) => Boot(l)
  }

  /** The network once the message being delivered has left it. */
  function Consumed<V>(s: System<V>, a: Action<V>): Network<V>
    requires a.Deliver? ==> Queue(s.net, a.sender, a.node) != []
  {
    match a
    case Deliver(f, t, _) => s.net[(f, t) := Queue(s.net, f, t)[1..]]
    case _ => s.net
  }

  function BeatTimes<V>(s: System<V>, a: Action<V>): map<int, int> {
    match a
    case Beat(node, _) => s.lastSent[node := s.now]
    case _ => s.lastSent
  }

  function Apply<V>(s: System<V>, a: Action<V>): System<V>
    requires Enabled(s, a)
  {
    match a
    case Tick(elapsed) => s.(now := s.now + elapsed)
    case Crash(node) => s.(up := s.up - {node})
    case Drop(f, t, i) => s.(net := s.net[(f, t) := Queue(s.net, f, t)[..i] + Queue(s.net, f, t)[i + 1..]])
    case _ =>
      var (l, sends) := Local(s, a);
      s.(leaf := s.leaf[a.node := l],
         net := Dispatch(Consumed(s, a), a.node, sends),
         lastSent := BeatTimes(s, a))
  }

  /** The queue of a link after a step: the delivered or dropped message leaves it, new ones join at the end. */
  lemma {:induction false} QueueAfter<V(!new)>(s: System<V>, a: Action<V>, f: int, t: int)
    requires Enabled(s, a)
    ensures var q := Queue(s.net, f, t);
            var kept := if a.Deliver? && f == a.sender && t == a.node then q[1..]
                        else if a.Drop? && f == a.sender && t == a.node then q[..a.position] + q[a.position + 1..]
                        else q;
            Queue(Apply(s, a).net, f, t) == kept + if IsLocal(a) && f == a.node then Addressed(Local(s, a).1, t) else []
  {
    if IsLocal(a) {
      DispatchAppends(Consumed(s, a), a.node, Local(s, a).1, f, t);
    }
  }

  // ----- Runs -----

  ghost predicate IsRun<V>(states: seq<System<V>>, actions: seq<Action<V>>) {
    && |states| == |actions| + 1
    && forall k :: 0 <= k < |actions| ==>
         Enabled(states[k], actions[k]) && states[k + 1] == Apply(states[k], actions[k])
  }

  /** What no step ever changes at a node: its id, its peers, and whose failure it reacts to. */
  ghost predicate StaticLeaf<V>(l: LeafState<V>, i: int, leader: int, members: set<int>) {
    && l.nodeId == i && l.clusterNodes == [] && l.localClusterLeader == leader
    && DistinctIds(l.localNodes)
    && forall j :: Registered(l.localNodes, j) <==> j in members
  }

  ghost predicate StaticLeaves<V>(s: System<V>, leader: int) {
    forall i :: i in s.leaf ==> StaticLeaf(s.leaf[i], i, leader, s.leaf.Keys)
  }

  /** Static full membership with a common leader: every table lists every member once and alive, stores
      are empty, nothing is in flight. A member's first heartbeats are due counting from lastSent. */
  ghost predicate Initial<V>(s: System<V>, leader: int) {
    && leader in s.leaf
    && s.up == s.leaf.Keys == s.lastSent.Keys
    && s.net == map[]
    && StaticLeaves(s, leader)
    && (forall i :: i in s.leaf ==> FreshLeaf(s.leaf[i], leader))
    && forall i, j :: i in s.leaf && j in s.leaf ==>
         Entry(s.leaf[i], j).isAlive && s.lastSent[j] <= Entry(s.leaf[i], j).lastSeen <= s.now
  }

  predicate FreshLeaf<V>(l: LeafState<V>, leader: int) {
    && l.currentLeaderId == leader
    && l.role == (if l.nodeId == leader then LocalLeader else PromotionReadyReplica)
    && l.store.order == [] && l.store.kv == map[] && l.store.capacity >= 1
  }

  predicate WellAddressed<V>(m: Message<V>, f: int, t: int) {
    match m
    case HeartBeat(id, _, _) => id == f
    case SelfPromotion(id, _) => id == f && f != t
    case Push(id, _, _, _) => id == f && f != t
    case _ => true
  }

  ghost predicate StaticLinks<V(!new)>(s: System<V>) {
    forall f, t, m :: m in Queue(s.net, f, t) ==> WellAddressed(m, f, t) && f in s.leaf
  }

  ghost predicate Static<V(!new)>(s: System<V>, leader: int) {
    && leader in s.leaf && s.up <= s.leaf.Keys
    && s.lastSent.Keys == s.leaf.Keys
    && StaticLeaves(s, leader)
    && StaticLinks(s)
  }

  lemma Member<V(!new)>(s: System<V>, leader: int, i: int)
    requires Static(s, leader) && i in s.leaf
    ensures StaticLeaf(s.leaf[i], i, leader, s.leaf.Keys)
    ensures leader in s.leaf && s.up <= s.leaf.Keys
  {
  }

  lemma LeaderIsMember<V(!new)>(s: System<V>, leader: int)
    requires Static(s, leader)
    ensures leader in s.leaf && s.up <= s.leaf.Keys
  {
  }

  lemma InFlight<V(!new)>(s: System<V>, leader: int, f: int, t: int, k: nat)
    requires Static(s, leader) && k < |Queue(s.net, f, t)|
    ensures WellAddressed(Queue(s.net, f, t)[k], f, t) && f in s.leaf
  {
    assert Queue(s.net, f, t)[k] in Queue(s.net, f, t);
  }

  lemma SameIdsStatic<V(!new)>(l: LeafState<V>, r: LeafState<V>, i: int, leader: int, members: set<int>)
    requires StaticLeaf(l, i, leader, members) && SameIds(l.localNodes, r.localNodes)
    requires r.nodeId == l.nodeId && r.clusterNodes == [] && r.localClusterLeader == l.localClusterLeader
    ensures StaticLeaf(r, i, leader, members)
  {
    forall j
      ensures Registered(l.localNodes, j) <==> Registered(r.localNodes, j)
    {
      SameIdsSameIndex(l.localNodes, r.localNodes, j);
    }
  }

  /** A step of a node keeps its table's ids. */
  lemma {:induction false} LocalKeepsStatic<V(!new)>(s: System<V>, a: Action<V>, leader: int)
    requires Static(s, leader) && IsLocal(a) && Enabled(s, a)
    ensures StaticLeaf(Local(s, a).0, a.node, leader, s.leaf.Keys)
  {
    hide Static;
    var l := s.leaf[a.node];
    Member(s, leader, a.node);
    match a
    case Beat(_, _) =>
    case ScanTables(_) =>
      ScanEffect(l, s.now);
      SameIdsStatic(l, Local(s, a).0, a.node, leader, s.leaf.Keys);
    case Deliver(f, t, order) =>
      var m := Queue(s.net, f, t)[0];
      InFlight(s, leader, f, t, 0);
      if m.HeartBeat? {
        HeartBeatEffect(l, m.nodeId, m.lastSeen, m.clusterType, s.now);
        SameIdsStatic(l, Local(s, a).0, a.node, leader, s.leaf.Keys);
      }
    case Write(_, _, _, _) =>
    case Read(_, _) =>
    case Start(_) =>
  }

  /** What a node sends carries its own id and does not come back to it. */
  lemma {:induction false} SendsAreWellAddressed<V(!new)>(s: System<V>, a: Action<V>)
    requires IsLocal(a) && Enabled(s, a)
    requires s.leaf[a.node].nodeId == a.node && s.leaf[a.node].clusterNodes == []
    ensures forall m :: m in Local(s, a).1 ==> WellAddressed(m.message, a.node, m.destination)
  {
    var l := s.leaf[a.node];
    match a
    case Beat(_, clusterType) => ToPeersReaches<V>(l.localNodes, l.nodeId, HeartBeat(l.nodeId, s.now, clusterType));
    case ScanTables(_) => SentByScan(l, s.now);
    case Write(_, key, value, _) => ToLivePeersReaches(l.localNodes, l.nodeId, Push(l.nodeId, s.now, key, value));
    case Deliver(_, _, _) =>
    case Read(_, _) =>
    case Start(_) =>
  }

  lemma SentByScan<V(!new)>(l: LeafState<V>, now: int)
    requires l.clusterNodes == []
    ensures forall m :: m in Scan(l, now).1 ==> m.message == SelfPromotion(l.nodeId, now) && m.destination != l.nodeId
  {
    ScanEffect(l, now);
    var sent := Scan(l, now).1;
    if sent != [] {
      var p :| PromotesAt(l, 0, p, now)
               && sent == ToLivePeers(Midway(l.localNodes, 0, p, l.nodeId, now), l.nodeId,
                  SelfPromotion(l.nodeId, now));
      ToLivePeersReaches<V>(Midway(l.localNodes, 0, p, l.nodeId, now), l.nodeId, SelfPromotion(l.nodeId, now));
    }
  }

  lemma {:induction false} StepKeepsLinks<V(!new)>(s: System<V>, a: Action<V>, leader: int)
    requires Static(s, leader) && Enabled(s, a)
    ensures StaticLinks(Apply(s, a))
  {
    var s' := Apply(s, a);
    if IsLocal(a) {
      assert StaticLeaf(s.leaf[a.node], a.node, leader, s.leaf.Keys);
      SendsAreWellAddressed(s, a);
    }
    forall f, t, m | m in Queue(s'.net, f, t)
      ensures WellAddressed(m, f, t) && f in s'.leaf
    {
      QueueAfter(s, a, f, t);
      if IsLocal(a) && f == a.node {
        AddressedIsSent(Local(s, a).1, t);
      }
      assert m in Queue(s.net, f, t) || (IsLocal(a) && f == a.node && m in Addressed(Local(s, a).1, t));
    }
  }

  lemma {:induction false} StepKeepsStatic<V(!new)>(s: System<V>, a: Action<V>, leader: int)
    requires Static(s, leader) && Enabled(s, a)
    ensures Static(Apply(s, a), leader)
    ensures Apply(s, a).leaf.Keys == s.leaf.Keys
  {
    hide StaticLinks, StaticLeaf, Local, Dispatch, Consumed;
    StepKeepsLinks(s, a, leader);
    if IsLocal(a) {
      LocalKeepsStatic(s, a, leader);
      assert Apply(s, a).leaf.Keys == s.leaf.Keys;
    }
  }

  lemma InitialIsStatic<V(!new)>(s: System<V>, leader: int)
    requires Initial(s, leader)
    ensures Static(s, leader)
  {
  }

  lemma {:induction false} RunKeepsStatic<V(!new)>(states: seq<System<V>>, actions: seq<Action<V>>, leader: int, n: nat)
    requires IsRun(states, actions) && Initial(states[0], leader) && n < |states|
    ensures Static(states[n], leader)
    ensures states[n].leaf.Keys == states[0].leaf.Keys
    ensures states[n].up <= states[0].up
    decreases n
  {
    if n == 0 {
      InitialIsStatic(states[0], leader);
    } else {
      RunKeepsStatic(states, actions, leader, n - 1);
      StepKeepsStatic(states[n - 1], actions[n - 1], leader);
    }
  }
}
