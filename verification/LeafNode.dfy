/** The leaf node in the form the program has it: an object whose methods update its fields,
    hand messages to the network and write to its own LRU engine. */
module LeafNode {
  import opened Lists
  import opened Lru
  import opened LruStore
  import opened Leaf

  class KiviLeaf<V> {
    var nodeId: int
    var role: Role
    var currentLeaderId: int
    var syncTarget: int
    var lastSyncTime: int
    var localClusterLeader: int
    var localNodes: seq<Descriptor>
    var clusterNodes: seq<Descriptor>
    const kivi: LRUStore<V>
    /** What has been handed to the network, in order. */
    var outbox: seq<Send<V>>
    /** How often on_leader_failure_detected has been called. */
    var leaderFailures: nat

    ghost predicate Valid()
      reads this, kivi, kivi.store
    {
      kivi.Valid()
    }

    ghost function Abstract(): LeafState<V>
      reads this, kivi, kivi.store
    {
      LeafState(nodeId, role, currentLeaderId, syncTarget, lastSyncTime, localClusterLeader,
                localNodes, clusterNodes, kivi.Abstract())
    }

    constructor (nodeId: int, role: Role, currentLeaderId: int, syncTarget: int, lastSyncTime: int, capacity: nat)
      requires capacity >= 1
      ensures Valid() && outbox == [] && leaderFailures == 0
      ensures Abstract() == LeafState(nodeId, role, currentLeaderId, syncTarget, lastSyncTime, -1, [], [],
              Empty<V>(capacity))
    {
      this.nodeId, this.role, this.currentLeaderId := nodeId, role, currentLeaderId;
      this.syncTarget, this.lastSyncTime := syncTarget, lastSyncTime;
      localClusterLeader, localNodes, clusterNodes := -1, [], [];
      kivi := new LRUStore(capacity);
      outbox, leaderFailures := [], 0;
    }

    method AddNewNode(id: int, clusterType: int, now: int)
      modifies this`localNodes, this`clusterNodes
      ensures clusterNodes == old(clusterNodes) + if clusterType == 1 then [Descriptor(id, now, -1, true)] else []
      ensures localNodes == old(localNodes) + if clusterType == 1 then [] else [Descriptor(id, now, -1, true)]
    {
      var desc := Descriptor(id, now, -1, true);
      if clusterType == 1 {
        clusterNodes := clusterNodes + [desc];
      } else {
        localNodes := localNodes + [desc];
      }
    }

    method RegisterClusterNodes(ids: seq<int>, now: int)
      modifies this`localNodes, this`clusterNodes
      ensures clusterNodes == old(clusterNodes)
      ensures localNodes == old(localNodes) + seq(|ids|, i requires 0 <= i < |ids| => Descriptor(ids[i], now, -1, true))
    {
      for i := 0 to |ids|
        invariant clusterNodes == old(clusterNodes)
        invariant localNodes == old(localNodes) + seq(i, j requires 0 <= j < i => Descriptor(ids[j], now, -1, true))
      {
        AddNewNode(ids[i], 2, now);
      }
    }

    method UpdateLastSeen(id: int, at: int) returns (known: bool)
      modifies this`localNodes, this`clusterNodes
      ensures known == (Registered(old(clusterNodes), id) || Registered(old(localNodes), id))
      ensures clusterNodes == if Registered(old(clusterNodes), id) then Refreshed(old(clusterNodes), id, at)
              else old(clusterNodes)
      ensures localNodes == if !Registered(old(clusterNodes), id) && Registered(old(localNodes), id)
                            then Refreshed(old(localNodes), id, at) else old(localNodes)
    {
      var i := 0;
      while i < |clusterNodes|
        invariant 0 <= i <= |clusterNodes|
        invariant forall j :: 0 <= j < i ==> clusterNodes[j].nodeId != id
        invariant clusterNodes == old(clusterNodes) && localNodes == old(localNodes)
      {
        if clusterNodes[i].nodeId == id {
          clusterNodes := clusterNodes[i := Seen(clusterNodes[i], at)];
          return true;
        }
        i := i + 1;
      }
      i := 0;
      while i < |localNodes|
        invariant 0 <= i <= |localNodes|
        invariant forall j :: 0 <= j < i ==> localNodes[j].nodeId != id
        invariant clusterNodes == old(clusterNodes) && localNodes == old(localNodes)
      {
        if localNodes[i].nodeId == id {
          localNodes := localNodes[i := Seen(localNodes[i], at)];
          return true;
        }
        i := i + 1;
      }
      return false;
    }

    method ReceiveHeartBeat(id: int, at: int, clusterType: int, now: int)
      requires Valid()
      modifies this`localNodes, this`clusterNodes
      ensures Valid()
      ensures Abstract() == Leaf.ReceiveHeartBeat(old(Abstract()), id, at, clusterType, now)
    {
      var known := UpdateLastSeen(id, at);
      if !known {
        AddNewNode(id, clusterType, now);
      }
    }

    method GetCurrentLeader() returns (leader: Option<Descriptor>)
      ensures leader == CurrentLeader(Abstract())
      ensures leader.None? <==> forall i :: 0 <= i < |localNodes| ==> localNodes[i].nodeId != currentLeaderId
      ensures leader.Some? ==>
                exists i :: 0 <= i < |localNodes| && localNodes[i] == leader.value
                            && leader.value.nodeId == currentLeaderId
                            && forall j :: 0 <= j < i ==> localNodes[j].nodeId != currentLeaderId
    {
      for i := 0 to |localNodes|
        invariant forall j :: 0 <= j < i ==> localNodes[j].nodeId != currentLeaderId
      {
        if localNodes[i].nodeId == currentLeaderId {
          return Some(localNodes[i]);
        }
      }
      return None;
    }

    method SendToLivePeers(m: Message<V>)
      modifies this`outbox
      ensures outbox == old(outbox) + ToLivePeers(localNodes, nodeId, m)
    {
      for i := 0 to |localNodes|
        invariant outbox == old(outbox) + ToLivePeers(localNodes[..i], nodeId, m)
      {
        assert Init(localNodes[..i + 1]) == localNodes[..i];
        if localNodes[i].nodeId != nodeId && localNodes[i].isAlive {
          outbox := outbox + [Send(localNodes[i].nodeId, m)];
        }
      }
      assert localNodes[..|localNodes|] == localNodes;
    }

    method BroadcastHeartBeat(now: int, clusterType: int)
      requires Valid()
      modifies this`outbox
      ensures Valid()
      ensures outbox == old(outbox) + HeartBeats(Abstract(), now, clusterType)
    {
      for i := 0 to |clusterNodes|
        invariant outbox == old(outbox) + ToPeers(clusterNodes[..i], nodeId, HeartBeat(nodeId, now, 1))
      {
        assert Init(clusterNodes[..i + 1]) == clusterNodes[..i];
        if clusterNodes[i].nodeId != nodeId {
          outbox := outbox + [Send(clusterNodes[i].nodeId, HeartBeat(nodeId, now, 1))];
        }
      }
      assert clusterNodes[..|clusterNodes|] == clusterNodes;
      ghost var first := outbox;
      for i := 0 to |localNodes|
        invariant outbox == first + ToPeers(localNodes[..i], nodeId, HeartBeat(nodeId, now, clusterType))
      {
        assert Init(localNodes[..i + 1]) == localNodes[..i];
        if localNodes[i].nodeId != nodeId {
          outbox := outbox + [Send(localNodes[i].nodeId, HeartBeat(nodeId, now, clusterType))];
        }
      }
      assert localNodes[..|localNodes|] == localNodes;
    }

    method TrySelfPromote(now: int)
      requires Valid()
      modifies this`currentLeaderId, this`role, this`outbox
      ensures Valid()
      ensures Abstract() == Leaf.TrySelfPromote(old(Abstract()), now).0
      ensures outbox == old(outbox) + Leaf.TrySelfPromote(old(Abstract()), now).1
    {
      if role != PromotionReadyReplica {
        return;
      }
      var leader := GetCurrentLeader();
      if leader.None? {
        return;
      }
      for i := 0 to |localNodes|
        invariant forall j :: 0 <= j < i ==> !(localNodes[j].nodeId == leader.value.nodeId && localNodes[j].isAlive)
      {
        if localNodes[i].nodeId == leader.value.nodeId && localNodes[i].isAlive {
          return;
        }
      }
      var lowestId := nodeId;
      for i := 0 to |localNodes|
        invariant lowestId == LowestAlive(localNodes[..i], nodeId)
      {
        assert Init(localNodes[..i + 1]) == localNodes[..i];
        if localNodes[i].isAlive && localNodes[i].nodeId < lowestId {
          lowestId := localNodes[i].nodeId;
        }
      }
      assert localNodes[..|localNodes|] == localNodes;
      if lowestId == nodeId {
        currentLeaderId := nodeId;
        role := LocalLeader;
        SendToLivePeers(SelfPromotion(nodeId, now));
      }
    }

    method ScanClusterTable(now: int)
      modifies this`clusterNodes
      ensures clusterNodes == ScanTable(old(clusterNodes), nodeId, now)
    {
      var i := 0;
      while i < |clusterNodes|
        invariant 0 <= i <= |clusterNodes| == |old(clusterNodes)|
        invariant forall j :: 0 <= j < i ==> clusterNodes[j] == ScanEntry(old(clusterNodes)[j], nodeId, now)
        invariant forall j :: i <= j < |clusterNodes| ==> clusterNodes[j] == old(clusterNodes)[j]
      {
        if clusterNodes[i].nodeId == nodeId {
          clusterNodes := clusterNodes[i := clusterNodes[i].(isAlive := true)];
        } else if now - clusterNodes[i].lastSeen > HEARTBEAT_LIMIT && clusterNodes[i].isAlive {
          clusterNodes := clusterNodes[i := clusterNodes[i].(isAlive := false)];
        }
        i := i + 1;
      }
    }

    /** One entry of the local table; the overdue leader's entry calls for a promotion attempt. */
    method ScanLocalEntry(i: nat, now: int)
      requires Valid() && i < |localNodes|
      modifies this`currentLeaderId, this`role, this`outbox, this`localNodes, this`leaderFailures
      ensures Valid()
      ensures leaderFailures == old(leaderFailures) + if LeaderFails(old(Abstract()), i, now) then 1 else 0
      ensures Abstract() == ScanStep(old(Abstract()), i, now).0 && |localNodes| == |old(localNodes)|
      ensures outbox == old(outbox) + ScanStep(old(Abstract()), i, now).1
    {
      var d := localNodes[i];
      if d.nodeId == nodeId {
        localNodes := localNodes[i := d.(isAlive := true)];
      } else if now - d.lastSeen > HEARTBEAT_LIMIT && d.isAlive {
        localNodes := localNodes[i := d.(isAlive := false)];
        if d.nodeId == localClusterLeader {
          leaderFailures := leaderFailures + 1;
          TrySelfPromote(now);
        }
      } else {
        assert localNodes == localNodes[i := d];
      }
    }

    /** One pass of the failure detection thread. */
    method FailureDetectionScan(now: int)
      requires Valid()
      modifies this`currentLeaderId, this`role, this`outbox, this`localNodes, this`clusterNodes, this`leaderFailures
      ensures Valid()
      ensures leaderFailures == old(leaderFailures) + Callbacks(old(Abstract()), now)
      ensures Abstract() == Scan(old(Abstract()), now).0
      ensures outbox == old(outbox) + Scan(old(Abstract()), now).1
    {
      hide ScanStep, LeaderFails;
      ScanClusterTable(now);
      ghost var start := Abstract();
      var i := 0;
      while i < |localNodes|
        invariant 0 <= i <= |localNodes|
        invariant Valid()
        invariant outbox + ScanFrom(Abstract(), i, now).1 == old(outbox) + ScanFrom(start, 0, now).1
        invariant ScanFrom(Abstract(), i, now).0 == ScanFrom(start, 0, now).0
        invariant leaderFailures + CallbacksFrom(Abstract(), i, now) ==
                  old(leaderFailures) + CallbacksFrom(start, 0, now)
        decreases |localNodes| - i
      {
        ghost var before, sent := Abstract(), outbox;
        ScanLocalEntry(i, now);
        ghost var step, more := ScanStep(before, i, now).1, ScanFrom(Abstract(), i + 1, now).1;
        assert (sent + step) + more == sent + (step + more);
        i := i + 1;
      }
    }

    method PullLeaderData()
      modifies this`outbox
      ensures outbox == old(outbox) + Leaf.PullLeaderData(Abstract())
    {
      outbox := outbox + [Send(syncTarget, SyncRequest(nodeId, lastSyncTime))];
    }

    /** The write handler of the REST controller. */
    method ClientPut(key: string, value: V, emptyValue: bool, now: int) returns (reply: PutReply)
      requires Valid()
      modifies this`outbox, kivi, kivi.store
      ensures Valid()
      ensures (Abstract(), reply) == (Leaf.ClientPut(old(Abstract()), key, value, emptyValue, now).0,
                                      Leaf.ClientPut(old(Abstract()), key, value, emptyValue, now).2)
      ensures outbox == old(outbox) + Leaf.ClientPut(old(Abstract()), key, value, emptyValue, now).1
    {
      if nodeId != currentLeaderId {
        var leader := GetCurrentLeader();
        return if leader.Some? then Redirected(leader.value.nodeId) else LeaderNotAvailable;
      }
      if key == "" || emptyValue {
        return MissingParameter;
      }
      kivi.Put(key, value);
      SendToLivePeers(Push(nodeId, now, key, value));
      return Accepted;
    }

    method ClientGet(key: string) returns (value: Option<V>)
      requires Valid()
      modifies kivi
      ensures Valid()
      ensures (Abstract(), value) == Leaf.ClientGet(old(Abstract()), key)
    {
      value := kivi.Get(key);
    }

    /** Answering a sync request with a snapshot of the whole store. */
    method PushLeaderData(follower: Descriptor, now: int) returns (ghost order: seq<(string, V)>)
      requires Valid()
      modifies this`outbox
      ensures Valid() && Enumerates(order, kivi.store.kv)
      ensures outbox == old(outbox) + [Send(follower.nodeId,
                SyncResponse(nodeId, follower.nodeId, follower.lastSync, now, Stamped(order, now)))]
    {
      var batch := kivi.GetKvBatch();
      var payload := new LocalSyncPayload<V>();
      order := payload.LoadFromMap(batch, now);
      outbox := outbox + [Send(follower.nodeId,
                  SyncResponse(nodeId, follower.nodeId, follower.lastSync, now, payload.updates))];
    }

    /** The message handler of the RPC server. The order in which it goes through a map is reported
        as a ghost result. */
    method HandleMessage(m: Message<V>, now: int) returns (ghost order: seq<(string, V)>)
      requires Valid()
      modifies this, kivi, kivi.store
      ensures Valid() && leaderFailures == old(leaderFailures)
      ensures nodeId == old(nodeId) && role == old(role) && localClusterLeader == old(localClusterLeader)
      ensures !m.HeartBeat? ==> localNodes == old(localNodes) && clusterNodes == old(clusterNodes)
      ensures kivi.Abstract() == match m
                case Push(_, _, key, value) => Insert(old(kivi.Abstract()), key, value)
                case SyncResponse(_, _, _, _, _) => Load(old(kivi.Abstract()), order)
                case _ => old(kivi.Abstract())
      ensures lastSyncTime == if m.Push? || m.SyncResponse? then m.timestamp else old(lastSyncTime)
      ensures currentLeaderId == if m.SelfPromotion? then m.leaderId else old(currentLeaderId)
      ensures syncTarget ==
              if m.SelfPromotion? && exists i :: 0 <= i < |localNodes| && localNodes[i].nodeId == m.leaderId
              then m.leaderId else old(syncTarget)
      ensures m.SelfPromotion? ==> outbox == old(outbox) + [Send(syncTarget, SyncRequest(nodeId, lastSyncTime))]
      ensures m.HeartBeat? || m.Push? || m.SyncResponse? ==> outbox == old(outbox)
      ensures m.SyncRequest? || m.SyncResponse? ==>
                Enumerates(order, Iterated(old(Abstract()), m))
                  || (m.SyncRequest? && !Registered(old(localNodes), m.followerId))
      ensures Abstract() == Handle(old(Abstract()), m, now, order).0
      ensures outbox == old(outbox) + Handle(old(Abstract()), m, now, order).1
    {
      hide Insert, Load, Loaded, PayloadMap, Stamped, Enumerates;
      order := [];
      match m
      case Push(_, timestamp, key, value) =>
        kivi.Put(key, value);
        lastSyncTime := timestamp;
      case SyncRequest(follower, _) =>
        for i := 0 to |localNodes|
          invariant forall j :: 0 <= j < i ==> localNodes[j].nodeId != follower
        {
          if localNodes[i].nodeId == follower {
            order := PushLeaderData(localNodes[i], now);
            assert IndexOfNode(localNodes, follower) == i;
            return;
          }
        }
      case SyncResponse(_, _, _, timestamp, pairs) =>
        var payload := new LocalSyncPayload<V>();
        payload.updates := pairs;
        var batch := payload.GetPayload();
        order := kivi.SetKvBatch(batch);
        lastSyncTime := timestamp;
      case SelfPromotion(leader, _) =>
        currentLeaderId := leader;
        ghost var oldTarget := syncTarget;
        for i := 0 to |localNodes|
          invariant unchanged(`localNodes)
          invariant syncTarget == if IndexOfNode(localNodes, leader) < i then leader else oldTarget
          invariant unchanged(`nodeId) && unchanged(`lastSyncTime) && unchanged(`role)
          invariant unchanged(`clusterNodes) && unchanged(`localClusterLeader) && unchanged(`outbox)
                    && unchanged(`leaderFailures)
          invariant currentLeaderId == leader
          invariant unchanged(kivi) && unchanged(kivi.store)
        {
          if localNodes[i].nodeId == leader {
            syncTarget := localNodes[i].nodeId;
          }
        }
        PullLeaderData();
      case HeartBeat(id, at, clusterType) =>
        ReceiveHeartBeat(id, at, clusterType, now);
    }

    /** The part of starting up that concerns the cluster. */
    method Boot()
      requires Valid()
      modifies this`syncTarget, this`outbox
      ensures Valid()
      ensures var known := exists i :: 0 <= i < |localNodes| && localNodes[i].nodeId == currentLeaderId;
              && syncTarget == (if known then currentLeaderId else old(syncTarget))
              && outbox == old(outbox) + if known && nodeId != currentLeaderId
                                         then [Send(currentLeaderId, SyncRequest(nodeId, lastSyncTime))] else []
      ensures Abstract() == Leaf.Boot(old(Abstract())).0
      ensures outbox == old(outbox) + Leaf.Boot(old(Abstract())).1
    {
      var leader := GetCurrentLeader();
      if leader.Some? {
        syncTarget := leader.value.nodeId;
        if nodeId != syncTarget {
          PullLeaderData();
        }
      }
    }
  }

  /** The write handler of the REST controller, where values are text. */
  method HandlePut(leaf: KiviLeaf<string>, key: string, val: string, now: int) returns (reply: PutReply)
    requires leaf.Valid()
    modifies leaf`outbox, leaf.kivi, leaf.kivi.store
    ensures leaf.Valid()
    ensures var before := old(leaf.Abstract());
            if leaf.nodeId != leaf.currentLeaderId then
              && reply == (if exists i :: 0 <= i < |leaf.localNodes|
                                          && leaf.localNodes[i].nodeId == leaf.currentLeaderId
                           then Redirected(leaf.currentLeaderId) else LeaderNotAvailable)
              && leaf.Abstract() == before && leaf.outbox == old(leaf.outbox)
            else if key == "" || val == "" then
              reply == MissingParameter && leaf.Abstract() == before && leaf.outbox == old(leaf.outbox)
            else
              && reply == Accepted && leaf.Abstract() == before.(store := Insert(before.store, key, val))
              && leaf.outbox == old(leaf.outbox) +
                 ToLivePeers(leaf.localNodes, leaf.nodeId, Push(leaf.nodeId, now, key, val))
  {
    reply := leaf.ClientPut(key, val, val == "", now);
  }
}
