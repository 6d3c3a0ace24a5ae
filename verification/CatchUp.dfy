/** How a node catches up with the leader it is told of: whom it asks, that it is answered, and what it then holds. */
module CatchUp {
  import opened Lru
  import opened LruStore
  import opened Leaf
  import opened LeafFacts
  import opened Cluster
  import opened Replication
  import opened Convergence
  import opened Healing
  import opened NodeEffects
  import opened Takeover

  // ----- Asking -----

  /** A node that is told of a leader follows it, asks it for its data and asks nobody else. */
  lemma PromotionIsFollowed<V(!new)>(s: System<V>, a: Action<V>, i: int, p: int)
    requires Enabled(s, a) && a.Deliver? && a.node == i && a.sender != i && s.leaf[i].nodeId == i
    requires Queue(s.net, a.sender, i)[0].SelfPromotion? && Queue(s.net, a.sender, i)[0].leaderId == p
    requires exists k :: 0 <= k < |s.leaf[i].localNodes| && s.leaf[i].localNodes[k].nodeId == p
    ensures var s', l := Apply(s, a), s.leaf[i];
            && s'.leaf == s.leaf[i := l.(currentLeaderId := p, syncTarget := p)]
            && Queue(s'.net, i, p) == Queue(s.net, i, p) + [SyncRequest(i, l.lastSyncTime)]
            && forall j :: j != p ==> Queue(s'.net, i, j) == Queue(s.net, i, j)
  {
    var l, r := s.leaf[i], Local(s, a);
    RegisteredIff(l.localNodes, p);
    var request: Message<V> := SyncRequest(i, l.lastSyncTime);
    assert r.1 == [Send(p, request)];
    forall j
      ensures Queue(Apply(s, a).net, i, j) == Queue(s.net, i, j) + if j == p then [request] else []
    {
      QueueAfter(s, a, i, j);
      OneSend(p, request, j);
    }
  }

  // ----- When a node has last been synchronised -----

  /** The time stamp of the last data message that a node has consumed, or what it had to begin with. */
  function LastSynchronised<V>(states: seq<System<V>>, actions: seq<Action<V>>, i: int, n: nat): int
    requires |states| == |actions| + 1 && n <= |actions| && i in states[0].leaf
  {
    if n == 0 then states[0].leaf[i].lastSyncTime
    else
      var a, before := actions[n - 1], LastSynchronised(states, actions, i, n - 1);
      if a.Deliver? && a.node == i && Queue(states[n - 1].net, a.sender, i) != [] then
        match Queue(states[n - 1].net, a.sender, i)[0]
        case Push(_, timestamp, _, _) => timestamp
        case SyncResponse(_, _, _, timestamp, _) => timestamp
        case _ => before
      else before
  }

  lemma {:induction false} SyncTimeIsLast<V(!new)>(states: seq<System<V>>, actions: seq<Action<V>>, leader: int, i: int,
                                                   n: nat)
    requires IsRun(states, actions) && Initial(states[0], leader) && n < |states| && i in states[0].leaf
    ensures i in states[n].leaf && states[n].leaf[i].lastSyncTime == LastSynchronised(states, actions, i, n)
    decreases n
  {
    hide Static, Initial, Scan, Insert, Load, Touch, Dispatch, Consumed;
    RunKeepsStatic(states, actions, leader, n);
    if n == 0 {
    } else {
      SyncTimeIsLast(states, actions, leader, i, n - 1);
      var s, a := states[n - 1], actions[n - 1];
      if a == ScanTables(i) {
        ScanEffect(s.leaf[i], s.now);
      }
    }
  }

  // ----- Being answered -----

  /** A sync request of node f to node p is in flight. */
  ghost predicate Asked<V>(s: System<V>, f: int, p: int) {
    exists k :: 0 <= k < |Queue(s.net, f, p)| && Queue(s.net, f, p)[k].SyncRequest?
  }

  predicate Loses<V>(a: Action<V>, f: int, t: int) {
    a.Drop? && a.sender == f && a.node == t
  }

  /** It stays in flight until it is delivered. */
  lemma AskedUntilAnswered<V(!new)>(s: System<V>, a: Action<V>, f: int, p: int)
    requires Enabled(s, a) && Asked(s, f, p) && !Loses(a, f, p)
    ensures Asked(Apply(s, a), f, p)
            || (a.Deliver? && a.sender == f && a.node == p
                && Queue(s.net, f, p) != [] && Queue(s.net, f, p)[0].SyncRequest?)
  {
    QueueAfter(s, a, f, p);
    var q, q' := Queue(s.net, f, p), Queue(Apply(s, a).net, f, p);
    var k :| 0 <= k < |q| && q[k].SyncRequest?;
    if a.Deliver? && a.sender == f && a.node == p {
      assert k > 0 ==> q'[k - 1] == q[k];
    } else {
      assert q'[k] == q[k];
    }
  }

  lemma {:induction false} AskedIsAnswered<V(!new)>(states: seq<System<V>>, actions: seq<Action<V>>, leader: int,
                                                    f: int, p: int, q: nat, n: nat)
    returns (m: nat)
    requires IsRun(states, actions) && Initial(states[0], leader) && q <= n < |states|
    requires f in states[0].leaf && p in states[0].leaf
    requires Asked(states[q], f, p) && !Asked(states[n], f, p)
    requires forall k :: q <= k < n ==> !Loses(actions[k], f, p)
    ensures q <= m < n && Answers(states[m], actions[m], p, f)
    decreases n - q
  {
    hide Static, Initial, Asked, Apply;
    RunKeepsStatic(states, actions, leader, q);
    AskedUntilAnswered(states[q], actions[q], f, p);
    Member(states[q], leader, p);
    if Asked(states[q + 1], f, p) {
      m := AskedIsAnswered(states, actions, leader, f, p, q + 1, n);
    } else {
      m := q;
    }
  }

  // ----- A follower that starts under one leader -----

  lemma StartAsks<V(!new)>(s: System<V>, leader: int, f: int)
    requires Static(s, leader) && OneLeader(s, leader) && Enabled(s, Start(f)) && f != leader
    ensures Asked(Apply(s, Start(f)), f, leader)
  {
    var l := s.leaf[f];
    Member(s, leader, f);
    assert Registered(l.localNodes, leader);
    RegisteredIff(l.localNodes, leader);
    StartAsksLeader(l);
    var request: Message<V> := SyncRequest(f, l.lastSyncTime);
    QueueAfter(s, Start(f), f, leader);
    OneSend(leader, request, leader);
    var q' := Queue(Apply(s, Start(f)).net, f, leader);
    assert q'[|q'| - 1] == request;
  }

  /** A follower that starts, whose request is not lost, and for which no data is lost from then on, holds exactly the
      latest value of every key once its link is consumed and no request of it is under way. */
  lemma StartedFollowerCatchesUp<V(!new)>(states: seq<System<V>>, actions: seq<Action<V>>, leader: int, f: int, q: nat,
                                          n: nat)
    requires OneLeaderRun(states, actions, leader) && q < n < |states| && f in states[0].leaf && f != leader
    requires |Written(states, actions, |actions|)| <= states[0].leaf[leader].store.capacity
    requires |Written(states, actions, |actions|)| <= states[0].leaf[f].store.capacity
    requires actions[q] == Start(f)
    requires forall k :: q < k < n ==> !Loses(actions[k], f, leader) && Lossless(states[k], actions[k], leader, f)
    requires !Asked(states[n], f, leader) && Data(Queue(states[n].net, leader, f)) == []
    ensures leader in states[n].leaf && f in states[n].leaf
    ensures states[n].leaf[f].store.kv == states[n].leaf[leader].store.kv == Written(states, actions, n)
  {
    hide Asked, Apply, Lossless, Enabled;
    RunIsOrderly(states, actions, leader, q);
    LeaderIsMember(states[0], leader) by {
      InitialIsStatic(states[0], leader);
    }
    hide Initial;
    StartAsks(states[q], leader, f);
    var m := AskedIsAnswered(states, actions, leader, f, leader, q + 1, n);
    SnapshotHealsFollower(states, actions, leader, f, m, n);
  }

  // ----- Keys -----

  /** No store and no message knows a key outside `room`. */
  ghost predicate KnownKeys<V(!new)>(s: System<V>, room: set<string>) {
    && (forall i :: i in s.leaf ==> s.leaf[i].store.kv.Keys <= room)
    && forall g, t, m :: m in Queue(s.net, g, t) ==> Brought(m) <= room
  }

  lemma StoreIsKnown<V(!new)>(s: System<V>, a: Action<V>, i: int, room: set<string>)
    requires Enabled(s, a) && i in s.leaf && Lru.Valid(s.leaf[i].store) && KnownKeys(s, room)
    ensures StoreThen(s, a, i).kv.Keys <= if AcceptedWrite(s, a) then room + {a.key} else room
  {
    var c := s.leaf[i].store;
    if a.Deliver? && a.node == i {
      var m := Queue(s.net, a.sender, i)[0];
      assert m in Queue(s.net, a.sender, i);
      HeadOrder(s, a);
      ReceivedEffect(c, m, a.order);
      assert forall k :: Offer(m, k).Some? ==> k in Brought(m);
    } else if AcceptedWrite(s, a) {
      InsertEffect(c, a.key, a.value);
    }
  }

  lemma SentIsKnown<V(!new)>(s: System<V>, a: Action<V>)
    requires Enabled(s, a) && IsLocal(a) && s.leaf[a.node].nodeId == a.node && s.leaf[a.node].clusterNodes == []
    ensures forall x :: x in Local(s, a).1 ==>
              Brought(x.message) <= s.leaf[a.node].store.kv.Keys + if AcceptedWrite(s, a) then {a.key} else {}
  {
    hide Insert, Load, PayloadMap, Stamped, Scan, ToLivePeers, IndexFrom;
    var l := s.leaf[a.node];
    match a
    case Beat(_, clusterType) => ToPeersReaches<V>(l.localNodes, l.nodeId, HeartBeat(l.nodeId, s.now, clusterType));
    case ScanTables(_) => SentByScan(l, s.now);
    case Write(_, key, value, _) => ToLivePeersReaches<V>(l.localNodes, l.nodeId, Push(l.nodeId, s.now, key, value));
    case Deliver(f, t, order) =>
      HeadOrder(s, a);
      if Queue(s.net, f, t)[0].SyncRequest? {
        PayloadRoundTrip(l.store.kv, order, s.now);
      }
    case Read(_, _) =>
    case Start(_) =>
  }

  lemma StepKeepsKnown<V(!new)>(s: System<V>, a: Action<V>, leader: int, room: set<string>)
    requires Static(s, leader) && Enabled(s, a) && ValidStores(s) && KnownKeys(s, room)
    ensures KnownKeys(Apply(s, a), if AcceptedWrite(s, a) then room + {a.key} else room)
  {
    LinksStayKnown(s, a, leader, room);
    hide Static, Apply, Enabled, AcceptedWrite, Brought, ValidStores;
    forall i | i in Apply(s, a).leaf
      ensures Apply(s, a).leaf[i].store.kv.Keys <= if AcceptedWrite(s, a) then room + {a.key} else room
    {
      StoreStaysKnown(s, a, leader, i, room);
    }
  }

  lemma StoreStaysKnown<V(!new)>(s: System<V>, a: Action<V>, leader: int, i: int, room: set<string>)
    requires Static(s, leader) && Enabled(s, a) && ValidStores(s) && KnownKeys(s, room) && i in Apply(s, a).leaf
    ensures Apply(s, a).leaf[i].store.kv.Keys <= if AcceptedWrite(s, a) then room + {a.key} else room
  {
    StepKeepsStatic(s, a, leader);
    hide Static, Apply, StoreThen, AcceptedWrite;
    StoreAfter(s, a, leader, i);
    StoreIsKnown(s, a, i, room);
  }

  lemma LinksStayKnown<V(!new)>(s: System<V>, a: Action<V>, leader: int, room: set<string>)
    requires Static(s, leader) && Enabled(s, a) && KnownKeys(s, room)
    ensures forall g, t, m :: m in Queue(Apply(s, a).net, g, t) ==>
              Brought(m) <= if AcceptedWrite(s, a) then room + {a.key} else room
  {
    var s', room' := Apply(s, a), if AcceptedWrite(s, a) then room + {a.key} else room;
    if IsLocal(a) {
      Member(s, leader, a.node);
      SentIsKnown(s, a);
    }
    hide Static, Apply, Local, AcceptedWrite;
    forall g, t, m | m in Queue(s'.net, g, t)
      ensures Brought(m) <= room'
    {
      QueueAfter(s, a, g, t);
      if IsLocal(a) && g == a.node {
        AddressedIsSent(Local(s, a).1, t);
      }
      assert m in Queue(s.net, g, t) || (IsLocal(a) && g == a.node && m in Addressed(Local(s, a).1, t));
    }
  }

  /** In every run, nobody knows a key that has not been written. */
  lemma {:induction false} KeysAreWritten<V(!new)>(states: seq<System<V>>, actions: seq<Action<V>>, leader: int, n: nat)
    requires IsRun(states, actions) && Initial(states[0], leader) && n < |states|
    ensures KnownKeys(states[n], Written(states, actions, n).Keys) && ValidStores(states[n])
    decreases n
  {
    hide Static, Initial, KnownKeys, ValidStores, Enabled, Apply;
    if n == 0 {
      NothingKnown(states[0], leader);
      assert Written(states, actions, 0).Keys == {};
    } else {
      KeysAreWritten(states, actions, leader, n - 1);
      RunKeepsStatic(states, actions, leader, n - 1);
      StepKeepsKnown(states[n - 1], actions[n - 1], leader, Written(states, actions, n - 1).Keys);
      StepKeepsValidStores(states[n - 1], actions[n - 1], leader);
      assert Written(states, actions, n).Keys ==
             if AcceptedWrite(states[n - 1], actions[n - 1])
             then Written(states, actions, n - 1).Keys + {actions[n - 1].key} else Written(states, actions, n - 1).Keys;
    }
  }

  lemma NothingKnown<V(!new)>(s: System<V>, leader: int)
    requires Initial(s, leader)
    ensures KnownKeys(s, {}) && ValidStores(s)
  {
    FreshStores(s, leader);
  }
}
