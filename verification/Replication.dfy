/** Runs under one leader: what has been written, what the leader puts on the links to its followers, and how
    each step changes stores and links. */
module Replication {
  import opened Lists
  import opened Lru
  import opened LruStore
  import opened Leaf
  import opened LeafFacts
  import opened Cluster
  import opened Leadership

  // ----- Writes -----

  predicate AcceptedWrite<V>(s: System<V>, a: Action<V>) {
    a.Write? && AcceptsWrites(s, a.node) && a.key != "" && !a.emptyValue
  }

  /** The latest accepted value of every key written in the first n steps. */
  function Written<V>(states: seq<System<V>>, actions: seq<Action<V>>, n: nat): map<string, V>
    requires |states| == |actions| + 1 && n <= |actions|
  {
    if n == 0 then map[]
    else WrittenThen(Written(states, actions, n - 1), states[n - 1], actions[n - 1])
  }

  function WrittenThen<V>(w: map<string, V>, s: System<V>, a: Action<V>): map<string, V> {
    if AcceptedWrite(s, a) then w[a.key := a.value] else w
  }

  /** All nodes follow the initial leader throughout. */
  ghost predicate OneLeader<V>(s: System<V>, leader: int) {
    forall i :: i in s.leaf ==> s.leaf[i].currentLeaderId == leader
  }

  ghost predicate OneLeaderRun<V>(states: seq<System<V>>, actions: seq<Action<V>>, leader: int) {
    && IsRun(states, actions) && Initial(states[0], leader)
    && forall k :: 0 <= k < |states| ==> OneLeader(states[k], leader)
  }

  /** Node f has a value for k. */
  predicate Holds<V>(s: System<V>, f: int, k: string) {
    f in s.leaf && k in s.leaf[f].store.kv
  }

  // ----- Stores and links after a step -----

  /** The store of a node after a step. */
  function StoreThen<V>(s: System<V>, a: Action<V>, i: int): Cache<V>
    requires i in s.leaf
  {
    var c := s.leaf[i].store;
    if AcceptedWrite(s, a) && a.node == i then Insert(c, a.key, a.value)
    else if a.Read? && a.node == i then Touch(c, a.key)
    else if a.Deliver? && a.node == i && Queue(s.net, a.sender, i) != []
            then Received(c, Queue(s.net, a.sender, i)[0], a.order)
    else c
  }

  function Received<V>(c: Cache<V>, m: Message<V>, order: seq<(string, V)>): Cache<V> {
    match m
    case Push(_, _, k, v) => Insert(c, k, v)
    case SyncResponse(_, _, _, _, _) => Load(c, order)
    case _ => c
  }

  lemma LocalStore<V(!new)>(s: System<V>, a: Action<V>, leader: int)
    requires Static(s, leader) && Enabled(s, a) && IsLocal(a)
    ensures Local(s, a).0.store == StoreThen(s, a, a.node)
  {
    hide Static, Scan, Insert, Touch, Load;
    Member(s, leader, a.node);
    if a.ScanTables? {
      ScanEffect(s.leaf[a.node], s.now);
    }
  }

  lemma StoreAfter<V(!new)>(s: System<V>, a: Action<V>, leader: int, i: int)
    requires Static(s, leader) && Enabled(s, a) && i in s.leaf
    ensures i in Apply(s, a).leaf && Apply(s, a).leaf[i].store == StoreThen(s, a, i)
  {
    hide Static, Local, Insert, Touch, Received, Dispatch;
    if IsLocal(a) && a.node == i {
      LocalStore(s, a, leader);
    } else {
      OtherStore(s, a, i);
    }
  }

  /** A step leaves the stores of the other nodes alone. */
  lemma OtherStore<V(!new)>(s: System<V>, a: Action<V>, i: int)
    requires Enabled(s, a) && i in s.leaf && !(IsLocal(a) && a.node == i)
    ensures i in Apply(s, a).leaf && Apply(s, a).leaf[i] == s.leaf[i] && StoreThen(s, a, i) == s.leaf[i].store
  {
    hide Local, Insert, Touch, Received, Dispatch;
  }

  /** Only the leader sends data, never to itself, and only to it are snapshots asked for. */
  predicate OneWay<V>(m: Message<V>, f: int, t: int, leader: int) {
    match m
    case HeartBeat(_, _, _) => true
    case Push(_, _, _, _) => f == leader && t != leader
    case SyncResponse(_, _, _, _, _) => f == leader && t != leader
    case SyncRequest(follower, _) => follower == f && f != leader && t == leader
    case SelfPromotion(_, _) => false
  }

  ghost predicate OneWayLinks<V(!new)>(s: System<V>, leader: int) {
    forall f, t, m :: m in Queue(s.net, f, t) ==> OneWay(m, f, t, leader)
  }

  /** A scan that left a node following another one has not promoted it, so it has sent nothing. */
  lemma ScanSendsNothing<V(!new)>(s: System<V>, i: int, leader: int)
    requires Static(s, leader) && Enabled(s, ScanTables(i)) && OneLeader(s, leader)
    requires OneLeader(Apply(s, ScanTables(i)), leader)
    ensures Scan(s.leaf[i], s.now).1 == []
  {
    Member(s, leader, i);
    assert Apply(s, ScanTables(i)).leaf[i] == Scan(s.leaf[i], s.now).0;
    ScanEffect(s.leaf[i], s.now);
  }

  lemma SendsAreOneWay<V(!new)>(s: System<V>, a: Action<V>, leader: int)
    requires Static(s, leader) && Enabled(s, a) && IsLocal(a) && OneWayLinks(s, leader)
    requires OneLeader(s, leader) && OneLeader(Apply(s, a), leader)
    ensures forall m :: m in Local(s, a).1 ==> OneWay(m.message, a.node, m.destination, leader)
  {
    hide Static, Scan, OneLeader, Apply;
    var l := s.leaf[a.node];
    LeaderOf(s, a.node, leader);
    match a
    case Beat(_, clusterType) => ToPeersReaches<V>(l.localNodes, l.nodeId, HeartBeat(l.nodeId, s.now, clusterType));
    case ScanTables(i) => ScanSendsNothing(s, i, leader);
    case Write(_, key, value, _) => ToLivePeersReaches<V>(l.localNodes, l.nodeId, Push(l.nodeId, s.now, key, value));
    case Deliver(f, t, _) =>
      assert Queue(s.net, f, t)[0] in Queue(s.net, f, t);
    case Read(_, _) =>
    case Start(_) =>
  }

  lemma LeaderOf<V(!new)>(s: System<V>, i: int, leader: int)
    requires Static(s, leader) && OneLeader(s, leader) && i in s.leaf
    ensures StaticLeaf(s.leaf[i], i, leader, s.leaf.Keys) && s.leaf[i].currentLeaderId == leader
  {
    Member(s, leader, i);
  }

  lemma StepKeepsOneWay<V(!new)>(s: System<V>, a: Action<V>, s': System<V>, leader: int)
    requires Static(s, leader) && Enabled(s, a) && s' == Apply(s, a) && OneWayLinks(s, leader)
    requires OneLeader(s, leader) && OneLeader(s', leader)
    ensures OneWayLinks(s', leader)
  {
    if IsLocal(a) {
      SendsAreOneWay(s, a, leader);
    }
    hide Static, OneLeader;
    forall f, t, m | m in Queue(s'.net, f, t)
      ensures OneWay(m, f, t, leader)
    {
      QueueAfter(s, a, f, t);
      if IsLocal(a) && f == a.node {
        AddressedIsSent(Local(s, a).1, t);
      }
      assert m in Queue(s.net, f, t) || (IsLocal(a) && f == a.node && m in Addressed(Local(s, a).1, t));
    }
  }

  lemma SomeAliveLast(nodes: seq<Descriptor>, t: int)
    requires DistinctIds(nodes) && nodes != []
    ensures DistinctIds(Init(nodes))
    ensures var d := Last(nodes); SomeAlive(nodes, t) <==> SomeAlive(Init(nodes), t) || (d.nodeId == t && d.isAlive)
    ensures SomeAlive(Init(nodes), t) ==> Last(nodes).nodeId != t
  {
    var n := |nodes| - 1;
    assert nodes[n] == Last(nodes) && forall i :: 0 <= i < n ==> Init(nodes)[i] == nodes[i];
  }

  lemma OneSend<V(!new)>(destination: int, m: Message<V>, t: int)
    ensures Addressed([Send(destination, m)], t) == if destination == t then [m] else []
  {
    assert Init([Send(destination, m)]) == [];
  }

  /** What one accepted write puts on the link to a follower. */
  lemma {:induction false} LivePeersGetOneMessage<V(!new)>(nodes: seq<Descriptor>, self: int, m: Message<V>, t: int)
    requires DistinctIds(nodes) && t != self
    ensures Addressed(ToLivePeers(nodes, self, m), t) == if SomeAlive(nodes, t) then [m] else []
  {
    hide SomeAlive, DistinctIds, Addressed;
    if nodes == [] {
      NobodyThere<V>(t);
    } else {
      var rest, d := Init(nodes), Last(nodes);
      SomeAliveLast(nodes, t);
      LivePeersGetOneMessage(rest, self, m, t);
      var now: seq<Send<V>> := if d.nodeId != self && d.isAlive then [Send(d.nodeId, m)] else [];
      AddressedConcat(ToLivePeers(rest, self, m), now, t);
      assert ToLivePeers(nodes, self, m) == ToLivePeers(rest, self, m) + now;
      NobodyThere<V>(t);
      OneSend(d.nodeId, m, t);
    }
  }

  lemma NobodyThere<V(!new)>(t: int)
    ensures Addressed<V>([], t) == [] && !SomeAlive([], t)
  {
  }

  /** Data reaches f only from p, and a request names the node that sends it. */
  predicate FedMessage<V>(m: Message<V>, g: int, t: int, p: int, f: int) {
    match m
    case SyncRequest(follower, _) => follower == g && g != t
    case Push(_, _, _, _) => t == f ==> g == p
    case SyncResponse(_, _, _, _, _) => t == f ==> g == p
    case _ => true
  }

  ghost predicate ValidStores<V>(s: System<V>) {
    forall i :: i in s.leaf ==> Lru.Valid(s.leaf[i].store)
  }

  /** Node p alone accepts writes, and no data is on its way to it. */
  ghost predicate Leads<V(!new)>(s: System<V>, p: int) {
    && (exists watched :: Static(s, watched)) && ValidStores(s) && p in s.leaf
    && (forall i :: AcceptsWrites(s, i) ==> i == p)
    && forall g, m :: m in Queue(s.net, g, p) ==> !m.Push? && !m.SyncResponse?
  }

  /** And what data node f gets is p's. */
  ghost predicate Feeds<V(!new)>(s: System<V>, p: int, f: int) {
    && Leads(s, p) && f in s.leaf && f != p
    && forall g, t, m :: m in Queue(s.net, g, t) ==> FedMessage(m, g, t, p, f)
  }

  lemma FeedsFacts<V(!new)>(s: System<V>, p: int, f: int)
    requires Feeds(s, p, f)
    ensures p in s.leaf && f in s.leaf && f != p && Lru.Valid(s.leaf[p].store) && Lru.Valid(s.leaf[f].store)
    ensures s.leaf[p].nodeId == p && s.leaf[p].clusterNodes == [] && DistinctIds(s.leaf[p].localNodes)
    ensures Registered(s.leaf[p].localNodes, f)
  {
    var watched :| Static(s, watched);
    Member(s, watched, p);
  }

  lemma HeadIsFed<V(!new)>(s: System<V>, p: int, f: int, g: int, t: int)
    requires Feeds(s, p, f) && Queue(s.net, g, t) != []
    ensures FedMessage(Queue(s.net, g, t)[0], g, t, p, f)
    ensures t == p ==> !Queue(s.net, g, t)[0].Push? && !Queue(s.net, g, t)[0].SyncResponse?
  {
    assert Queue(s.net, g, t)[0] in Queue(s.net, g, t);
  }

  /** What the leader puts on the link to a follower in one step. */
  function Fed<V>(s: System<V>, a: Action<V>, leader: int, f: int): seq<Message<V>>
    requires leader in s.leaf
  {
    if AcceptedWrite(s, a) && SomeAlive(s.leaf[leader].localNodes, f) then [Push(leader, s.now, a.key, a.value)]
    else if a.Deliver? && a.node == leader && Queue(s.net, a.sender, leader) != []
            && Queue(s.net, a.sender, leader)[0].SyncRequest? && a.sender == f
               && Registered(s.leaf[leader].localNodes, f)
    then [SyncResponse(leader, f, Entry(s.leaf[leader], f).lastSync, s.now, Stamped(a.order, s.now))]
    else []
  }

  /** The data messages among those on a link. */
  function Data<V>(q: seq<Message<V>>): seq<Message<V>> {
    if q == [] then []
    else if Last(q).Push? || Last(q).SyncResponse? then Data(Init(q)) + [Last(q)]
    else Data(Init(q))
  }

  lemma {:induction false} DataConcat<V(!new)>(a: seq<Message<V>>, b: seq<Message<V>>)
    ensures Data(a + b) == Data(a) + Data(b)
  {
    if b == [] {
      assert a + b == a;
    } else {
      assert Init(a + b) == a + Init(b);
      DataConcat(a, Init(b));
    }
  }

  lemma {:induction false} NoData<V(!new)>(q: seq<Message<V>>)
    requires forall m :: m in q ==> !m.Push? && !m.SyncResponse?
    ensures Data(q) == []
  {
    if q == [] {
    } else {
      NoData(Init(q));
    }
  }

  function DataOf<V>(m: Message<V>): seq<Message<V>> {
    if m.Push? || m.SyncResponse? then [m] else []
  }

  lemma DataSingle<V(!new)>(m: Message<V>)
    ensures Data([m]) == DataOf(m)
  {
    assert Init([m]) == [];
  }

  lemma DataAround<V(!new)>(a: seq<Message<V>>, m: Message<V>, b: seq<Message<V>>)
    ensures Data(a + [m] + b) == Data(a) + DataOf(m) + Data(b)
  {
    DataConcat(a + [m], b);
    DataConcat(a, [m]);
    DataSingle(m);
  }

  lemma DataSplit<V(!new)>(q: seq<Message<V>>, i: nat)
    requires i < |q|
    ensures Data(q) == Data(q[..i]) + DataOf(q[i]) + Data(q[i + 1..])
    ensures Data(q[..i] + q[i + 1..]) == Data(q[..i]) + Data(q[i + 1..])
  {
    var a, m, b := q[..i], q[i], q[i + 1..];
    Around(q, i);
    DataAround(a, m, b);
    DataConcat(a, b);
  }

  /** What a local step of the feeding node sends to a follower, as far as it carries data. */
  lemma FedIsSent<V(!new)>(s: System<V>, a: Action<V>, p: int, f: int)
    requires Feeds(s, p, f) && Enabled(s, a) && IsLocal(a) && a.node == p
    ensures Data(Addressed(Local(s, a).1, f)) == Fed(s, a, p, f)
  {
    FeedsFacts(s, p, f);
    hide Feeds, Scan;
    match a
    case Beat(_, _) => BareStepFeedsNothing(s, a, f);
    case ScanTables(_) => BareStepFeedsNothing(s, a, f);
    case Write(_, _, _, _) => WriteFeeds(s, a, p, f);
    case Deliver(_, _, _) => DeliveryFeeds(s, a, p, f);
    case Read(_, _) =>
    case Start(_) => SingleSend(Local(s, a).1, f);
  }

  lemma BareStepFeedsNothing<V(!new)>(s: System<V>, a: Action<V>, f: int)
    requires Enabled(s, a) && (a.Beat? || a.ScanTables?) && s.leaf[a.node].clusterNodes == []
    ensures Data(Addressed(Local(s, a).1, f)) == []
  {
    var l, sends := s.leaf[a.node], Local(s, a).1;
    if a.Beat? {
      ToPeersReaches<V>(l.localNodes, l.nodeId, HeartBeat(l.nodeId, s.now, a.clusterType));
    } else {
      SentByScan(l, s.now);
    }
    assert forall m :: m in sends ==> !m.message.Push? && !m.message.SyncResponse?;
    AddressedIsSent(sends, f);
    NoData(Addressed(sends, f));
  }

  lemma WriteFeeds<V(!new)>(s: System<V>, a: Action<V>, p: int, f: int)
    requires Enabled(s, a) && a.Write? && a.node == p && f != p
    requires s.leaf[p].nodeId == p && DistinctIds(s.leaf[p].localNodes)
    ensures Data(Addressed(Local(s, a).1, f)) == Fed(s, a, p, f)
  {
    var l := s.leaf[p];
    var m: Message<V> := Push(p, s.now, a.key, a.value);
    LivePeersGetOneMessage(l.localNodes, p, m, f);
    DataSingle(m);
  }

  lemma DeliveryFeeds<V(!new)>(s: System<V>, a: Action<V>, p: int, f: int)
    requires Feeds(s, p, f) && Enabled(s, a) && a.Deliver? && a.node == p
    ensures Data(Addressed(Local(s, a).1, f)) == Fed(s, a, p, f)
  {
    FeedsFacts(s, p, f);
    HeadIsFed(s, p, f, a.sender, p);
    hide Feeds;
    SingleSend(Local(s, a).1, f);
  }

  lemma SingleSend<V(!new)>(sends: seq<Send<V>>, f: int)
    requires |sends| <= 1
    ensures Data(Addressed(sends, f)) == if sends != [] && sends[0].destination == f then DataOf(sends[0].message)
            else []
  {
    if sends != [] {
      assert Init(sends) == [];
      assert Addressed(Init(sends), f) == [];
      DataSingle(sends[0].message);
    }
  }

  /** The data on the link from the leader to a follower after a step: the head is consumed by a delivery,
      one message can be lost, what the leader sends joins at the end. */
  ghost predicate DataStep<V>(s: System<V>, a: Action<V>, leader: int, f: int, d: seq<Message<V>>, d': seq<Message<V>>)
    requires leader in s.leaf && f in s.leaf
  {
    if a.Deliver? && a.sender == leader && a.node == f then
      Queue(s.net, leader, f) != [] && d == DataOf(Queue(s.net, leader, f)[0]) + d'
    else if a.Drop? && a.sender == leader && a.node == f then
      var q, i := Queue(s.net, leader, f), a.position;
      i < |q| && d == Data(q[..i]) + DataOf(q[i]) + Data(q[i + 1..]) && d' == Data(q[..i]) + Data(q[i + 1..])
    else if IsLocal(a) && a.node == leader then d' == d + Fed(s, a, leader, f)
    else d' == d
  }

  lemma DataAfter<V(!new)>(s: System<V>, a: Action<V>, p: int, f: int)
    requires Feeds(s, p, f) && Enabled(s, a)
    ensures DataStep(s, a, p, f, Data(Queue(s.net, p, f)), Data(Queue(Apply(s, a).net, p, f)))
  {
    FeedsFacts(s, p, f);
    hide Feeds, Local, Data, Fed;
    QueueAfter(s, a, p, f);
    var q, q' := Queue(s.net, p, f), Queue(Apply(s, a).net, p, f);
    if a.Deliver? && a.sender == p && a.node == f {
      DeliveredData(q);
      assert q' == q[1..];
    } else if a.Drop? && a.sender == p && a.node == f {
      DataSplit(q, a.position);
      assert q' == q[..a.position] + q[a.position + 1..];
    } else if IsLocal(a) && a.node == p {
      FedIsSent(s, a, p, f);
      DataConcat(q, Addressed(Local(s, a).1, f));
    } else {
      assert q' == q;
    }
  }

  lemma DeliveredData<V(!new)>(q: seq<Message<V>>)
    requires q != []
    ensures Data(q) == DataOf(q[0]) + Data(q[1..])
  {
    DataSplit(q, 0);
    assert Data(q[..0]) == [];
  }

  // ----- What a data message offers -----

  /** The value a message brings for a key. */
  function Offer<V>(m: Message<V>, k: string): Option<V> {
    match m
    case Push(_, _, key, value) => if key == k then Some(value) else None
    case SyncResponse(_, _, _, _, payload) => if k in PayloadMap(payload) then Some(PayloadMap(payload)[k]) else None
    case _ => None
  }

  /** A node that receives a message holds what it offers, or what it held before. */
  lemma ReceivedEffect<V(!new)>(c: Cache<V>, m: Message<V>, order: seq<(string, V)>)
    requires Lru.Valid(c) && (m.SyncResponse? ==> Enumerates(order, PayloadMap(m.payload)))
    ensures Lru.Valid(Received(c, m, order)) && Received(c, m, order).capacity == c.capacity
    ensures forall k :: k in Received(c, m, order).kv ==>
              if Offer(m, k).Some? then Received(c, m, order).kv[k] == Offer(m, k).value
              else k in c.kv && Received(c, m, order).kv[k] == c.kv[k]
  {
    match m
    case Push(_, _, k, v) => InsertEffect(c, k, v);
    case SyncResponse(_, _, _, _, payload) =>
      LoadOrder(c, order);
      LoadBatchValues(c, PayloadMap(payload), order);
    case _ =>
  }

  lemma HeadOrder<V>(s: System<V>, a: Action<V>)
    requires Enabled(s, a) && a.Deliver?
    ensures var m := Queue(s.net, a.sender, a.node)[0];
            m.SyncResponse? ==> Enumerates(a.order, PayloadMap(m.payload))
    ensures var m := Queue(s.net, a.sender, a.node)[0];
            m.SyncRequest? ==> Enumerates(a.order, s.leaf[a.node].store.kv)
  {
  }

  lemma StoreThenValid<V(!new)>(s: System<V>, a: Action<V>, i: int)
    requires Enabled(s, a) && i in s.leaf && Lru.Valid(s.leaf[i].store)
    ensures Lru.Valid(StoreThen(s, a, i)) && StoreThen(s, a, i).capacity == s.leaf[i].store.capacity
  {
    var c := s.leaf[i].store;
    if a.Deliver? && a.node == i {
      HeadOrder(s, a);
      ReceivedEffect(c, Queue(s.net, a.sender, i)[0], a.order);
    } else if a.Write? {
      InsertEffect(c, a.key, a.value);
    } else if a.Read? {
      StepKeepsValid(c, Lru.Get(a.key));
    }
  }

  /** A follower's store changes only by what a message of the feeding node offers. */
  lemma FollowerStore<V(!new)>(s: System<V>, a: Action<V>, p: int, f: int)
    requires Feeds(s, p, f) && Enabled(s, a)
    ensures StoreThen(s, a, f).kv ==
            if a.Deliver? && a.sender == p && a.node == f
               then Received(s.leaf[f].store, Queue(s.net, p, f)[0], a.order).kv
            else s.leaf[f].store.kv
  {
    hide Static, Insert, Load;
    if a.Deliver? && a.node == f {
      HeadIsFed(s, p, f, a.sender, f);
    }
  }

  /** The feeding node's store changes only by accepted writes. */
  lemma LeaderStore<V(!new)>(s: System<V>, a: Action<V>, p: int)
    requires Leads(s, p) && Enabled(s, a)
    ensures StoreThen(s, a, p).kv ==
            if AcceptedWrite(s, a) then Insert(s.leaf[p].store, a.key, a.value).kv else s.leaf[p].store.kv
    ensures AcceptedWrite(s, a) ==> a.node == p
  {
    hide Static, Insert, Load;
    if a.Deliver? && a.node == p {
      assert Queue(s.net, a.sender, p)[0] in Queue(s.net, a.sender, p);
    }
  }

  /** Everything the leader sends offers the latest values. */
  lemma FedOffers<V(!new)>(s: System<V>, a: Action<V>, leader: int, f: int, i: nat, k: string)
    requires leader in s.leaf && Enabled(s, a) && i < |Fed(s, a, leader, f)|
    ensures var m := Fed(s, a, leader, f)[i];
            Offer(m, k) == if AcceptedWrite(s, a) then (if k == a.key then Some(a.value) else None)
                           else Lookup(s.leaf[leader].store, k)
  {
    hide Static, PayloadMap, Stamped;
    if !AcceptedWrite(s, a) {
      HeadOrder(s, a);
      PayloadRoundTrip(s.leaf[leader].store.kv, a.order, s.now);
    }
  }

  /** The run-wide facts that both results rest on. */
  ghost predicate Orderly<V(!new)>(s: System<V>, leader: int) {
    Static(s, leader) && OneLeader(s, leader) && OneWayLinks(s, leader) && ValidStores(s)
  }

  lemma OrderlyFacts<V(!new)>(s: System<V>, leader: int)
    requires Orderly(s, leader)
    ensures leader in s.leaf && s.up <= s.leaf.Keys
    ensures forall i :: i in s.leaf ==> Lru.Valid(s.leaf[i].store) && s.leaf[i].nodeId == i
  {
    forall i | i in s.leaf
      ensures s.leaf[i].nodeId == i
    {
      Member(s, leader, i);
    }
  }

  lemma OrderlyLeads<V(!new)>(s: System<V>, leader: int)
    requires Orderly(s, leader)
    ensures Leads(s, leader)
  {
    LeaderIsMember(s, leader);
    forall i | AcceptsWrites(s, i)
      ensures i == leader
    {
      Member(s, leader, i);
    }
    forall g, m | m in Queue(s.net, g, leader)
      ensures !m.Push? && !m.SyncResponse?
    {
      assert OneWay(m, g, leader, leader);
    }
  }

  /** Under one leader every follower is fed by it. */
  lemma OrderlyFeeds<V(!new)>(s: System<V>, leader: int, f: int)
    requires Orderly(s, leader) && f in s.leaf && f != leader
    ensures Feeds(s, leader, f)
  {
    OrderlyLeads(s, leader);
    forall g, t, m | m in Queue(s.net, g, t)
      ensures FedMessage(m, g, t, leader, f)
    {
      assert OneWay(m, g, t, leader);
    }
  }

  /** What the step does to the follower's store and link, before it is read as maps. */
  lemma FollowerFacts<V(!new)>(s: System<V>, a: Action<V>, s': System<V>, p: int, f: int)
    requires Feeds(s, p, f) && Enabled(s, a) && s' == Apply(s, a)
    ensures p in s.leaf && f in s.leaf && f in s'.leaf && s'.leaf[f].store == StoreThen(s, a, f)
    ensures DataStep(s, a, p, f, Data(Queue(s.net, p, f)), Data(Queue(s'.net, p, f)))
    ensures s'.leaf[f].store.capacity == s.leaf[f].store.capacity && Lru.Valid(s.leaf[f].store)
    ensures s'.leaf[f].store.kv ==
            if a.Deliver? && a.sender == p && a.node == f && Queue(s.net, p, f) != []
            then Received(s.leaf[f].store, Queue(s.net, p, f)[0], a.order).kv
            else s.leaf[f].store.kv
    ensures a.Deliver? && Queue(s.net, a.sender, a.node) != [] && Queue(s.net, a.sender, a.node)[0].SyncResponse? ==>
              Enumerates(a.order, PayloadMap(Queue(s.net, a.sender, a.node)[0].payload))
    ensures !(IsLocal(a) && a.node == p) ==> Fed(s, a, p, f) == []
    ensures a.Deliver? && a.node == f && a.sender == p ==> !AcceptedWrite(s, a)
  {
    FeedsFacts(s, p, f);
    FedStore(s, a, p, f);
    DataAfter(s, a, p, f);
    FollowerStore(s, a, p, f);
    if AcceptedWrite(s, a) {
      assert a.node == p;
    }
    hide Feeds, Apply, StoreThen, Received, Data;
    if a.Deliver? {
      HeadOrder(s, a);
    }
  }

  lemma FedStore<V(!new)>(s: System<V>, a: Action<V>, p: int, f: int)
    requires Feeds(s, p, f) && Enabled(s, a)
    ensures f in Apply(s, a).leaf && Apply(s, a).leaf[f].store == StoreThen(s, a, f)
    ensures StoreThen(s, a, f).capacity == s.leaf[f].store.capacity
  {
    var watched :| Static(s, watched);
    StoreAfter(s, a, watched, f);
    StoreThenValid(s, a, f);
  }

  lemma StepKeepsOrderly<V(!new)>(s: System<V>, a: Action<V>, s': System<V>, leader: int)
    requires Orderly(s, leader) && Enabled(s, a) && s' == Apply(s, a) && OneLeader(s', leader)
    ensures Orderly(s', leader) && s'.leaf.Keys == s.leaf.Keys
  {
    StepKeepsStatic(s, a, leader);
    StepKeepsOneWay(s, a, s', leader);
    hide Static, OneLeader, OneWayLinks;
    forall i | i in s'.leaf
      ensures Lru.Valid(s'.leaf[i].store)
    {
      StoreAfter(s, a, leader, i);
      StoreThenValid(s, a, i);
    }
  }

  lemma InitialIsOrderly<V(!new)>(s: System<V>, leader: int)
    requires Initial(s, leader)
    ensures Orderly(s, leader)
  {
    InitialIsStatic(s, leader);
    FreshStores(s, leader);
  }

  lemma FreshStores<V(!new)>(s: System<V>, leader: int)
    requires Initial(s, leader)
    ensures OneLeader(s, leader) && OneWayLinks(s, leader) && ValidStores(s)
    ensures forall i :: i in s.leaf ==> s.leaf[i].store.kv == map[]
  {
    forall i | i in s.leaf
      ensures s.leaf[i].currentLeaderId == leader && Lru.Valid(s.leaf[i].store) && s.leaf[i].store.kv == map[]
    {
      assert FreshLeaf(s.leaf[i], leader);
    }
  }

  lemma {:induction false} RunIsOrderly<V(!new)>(states: seq<System<V>>, actions: seq<Action<V>>, leader: int, n: nat)
    requires OneLeaderRun(states, actions, leader) && n < |states|
    ensures Orderly(states[n], leader) && states[n].leaf.Keys == states[0].leaf.Keys
    decreases n
  {
    hide Orderly, OneLeader, Initial;
    if n == 0 {
      InitialIsOrderly(states[0], leader);
    } else {
      RunIsOrderly(states, actions, leader, n - 1);
      StepKeepsOrderly(states[n - 1], actions[n - 1], states[n], leader);
    }
  }
}
