/** What one leaf node does, in terms of its fields and of the messages that each other node gets from it. */
module NodeEffects {
  import opened Leaf
  import opened LeafFacts
  import opened Cluster
  import opened Leadership
  import opened Replication

  lemma RegisteredIff(nodes: seq<Descriptor>, id: int)
    ensures Registered(nodes, id) <==> exists i :: 0 <= i < |nodes| && nodes[i].nodeId == id
  {
  }

  // ----- Heartbeats -----

  /** Entry i is the first with an id, the cluster table coming before the local one. */
  predicate FirstEntry(all: seq<Descriptor>, i: int, id: int) {
    0 <= i < |all| && all[i].nodeId == id && forall j :: 0 <= j < i ==> all[j].nodeId != id
  }

  /** A heartbeat refreshes the first entry of its sender and no other. */
  lemma KnownSenderIsRefreshed<V(!new)>(l: LeafState<V>, id: int, at: int, clusterType: int, now: int, i: int)
    requires FirstEntry(l.clusterNodes + l.localNodes, i, id)
    ensures var r, all := ReceiveHeartBeat(l, id, at, clusterType, now), l.clusterNodes + l.localNodes;
            && r == l.(clusterNodes := r.clusterNodes, localNodes := r.localNodes)
            && |r.clusterNodes| == |l.clusterNodes|
            && r.clusterNodes + r.localNodes == all[i := Descriptor(id, at, all[i].lastSync, true)]
  {
    var all, n := l.clusterNodes + l.localNodes, |l.clusterNodes|;
    assert forall j :: 0 <= j < n ==> all[j] == l.clusterNodes[j];
    assert forall j :: n <= j < |all| ==> all[j] == l.localNodes[j - n];
    if i < n {
      assert IndexOfNode(l.clusterNodes, id) == i;
    } else {
      assert IndexOfNode(l.clusterNodes, id) == n;
      assert forall j :: 0 <= j < i - n ==> l.localNodes[j] == all[n + j];
      assert IndexOfNode(l.localNodes, id) == i - n;
    }
  }

  /** An unknown sender becomes the last entry of the table that its message names, alive and never synchronised. */
  lemma UnknownSenderJoins<V(!new)>(l: LeafState<V>, id: int, at: int, clusterType: int, now: int)
    requires forall i :: 0 <= i < |l.clusterNodes| ==> l.clusterNodes[i].nodeId != id
    requires forall i :: 0 <= i < |l.localNodes| ==> l.localNodes[i].nodeId != id
    ensures ReceiveHeartBeat(l, id, at, clusterType, now) ==
            if clusterType == 1 then l.(clusterNodes := l.clusterNodes + [Descriptor(id, now, -1, true)])
            else l.(localNodes := l.localNodes + [Descriptor(id, now, -1, true)])
  {
  }

  /** The heartbeats of one round: one to every other node of either table, none to the node itself. */
  lemma BeatsReachEveryPeer<V(!new)>(l: LeafState<V>, now: int, clusterType: int, t: int)
    requires OneEntryEach(l)
    ensures Addressed(HeartBeats(l, now, clusterType), t) ==
            if t == l.nodeId then []
            else if exists i :: 0 <= i < |l.clusterNodes| && l.clusterNodes[i].nodeId == t
                 then [HeartBeat(l.nodeId, now, 1)]
            else if exists i :: 0 <= i < |l.localNodes| && l.localNodes[i].nodeId == t
                 then [HeartBeat(l.nodeId, now, clusterType)]
            else []
  {
    var a, b: Message<V> := HeartBeat(l.nodeId, now, 1), HeartBeat(l.nodeId, now, clusterType);
    var first, second := ToPeers(l.clusterNodes, l.nodeId, a), ToPeers(l.localNodes, l.nodeId, b);
    AddressedConcat(first, second, t);
    OneTableEach(l, t);
    if t == l.nodeId {
      NothingToSelf(l.clusterNodes, t, a);
      NothingToSelf(l.localNodes, t, b);
    } else {
      PeersGetOneMessage(l.clusterNodes, l.nodeId, a, t);
      PeersGetOneMessage(l.localNodes, l.nodeId, b, t);
    }
  }

  lemma OneTableEach<V(!new)>(l: LeafState<V>, t: int)
    requires OneEntryEach(l)
    ensures DistinctIds(l.clusterNodes) && DistinctIds(l.localNodes)
    ensures !(Registered(l.clusterNodes, t) && Registered(l.localNodes, t))
  {
    var all, n := l.clusterNodes + l.localNodes, |l.clusterNodes|;
    assert forall j :: 0 <= j < n ==> all[j] == l.clusterNodes[j];
    assert forall j :: 0 <= j < |l.localNodes| ==> all[n + j] == l.localNodes[j];
  }

  lemma NothingToSelf<V(!new)>(nodes: seq<Descriptor>, self: int, m: Message<V>)
    ensures Addressed(ToPeers(nodes, self, m), self) == []
  {
    ToPeersReaches(nodes, self, m);
    NothingAddressed(ToPeers(nodes, self, m), self);
  }

  // ----- The scan -----

  /** Fifteen seconds without a heartbeat. */
  predicate Silent(d: Descriptor, now: int) {
    now - d.lastSeen > 15000
  }

  /** Marked alive once the scan has passed the entry. */
  predicate AliveAfter(d: Descriptor, self: int, now: int) {
    d.nodeId == self || (d.isAlive && !Silent(d, now))
  }

  predicate Marked(nodes: seq<Descriptor>, marked: seq<Descriptor>, self: int, now: int) {
    && |marked| == |nodes|
    && forall i :: 0 <= i < |nodes| ==>
         var d := nodes[i];
         marked[i] == Descriptor(d.nodeId, d.lastSeen, d.lastSync, AliveAfter(d, self, now))
  }

  /** The scan marks dead who has been silent for too long, the node itself alive, and leaves all else in both tables
      as it is. */
  lemma ScanMarks<V(!new)>(l: LeafState<V>, now: int)
    ensures var r := Scan(l, now).0;
            Marked(l.clusterNodes, r.clusterNodes, l.nodeId, now) && Marked(l.localNodes, r.localNodes, l.nodeId, now)
            && r == l.(clusterNodes := r.clusterNodes, localNodes := r.localNodes, currentLeaderId := r.currentLeaderId,
                       role := r.role)
  {
    ScanEffect(l, now);
  }

  /** Alive when the scan is at entry p. */
  predicate AliveAt(l: seq<Descriptor>, j: nat, p: nat, self: int, now: int)
    requires j < |l|
  {
    if j <= p then AliveAfter(l[j], self, now) else l[j].isAlive
  }

  /** Entry p is that of the watched leader, who has just been found silent; the leader that the node follows is known
      and has no live entry; and no live entry has a lower id. */
  predicate NextInLine<V>(l: LeafState<V>, p: nat, now: int) {
    var nodes := l.localNodes;
    && l.role == PromotionReadyReplica && p < |nodes|
    && nodes[p].nodeId == l.localClusterLeader != l.nodeId && nodes[p].isAlive && Silent(nodes[p], now)
    && (exists j :: 0 <= j < |nodes| && nodes[j].nodeId == l.currentLeaderId)
    && (forall j :: 0 <= j < |nodes| && AliveAt(nodes, j, p, l.nodeId, now) ==>
          nodes[j].nodeId != l.currentLeaderId && l.nodeId <= nodes[j].nodeId)
  }

  lemma NextInLinePromotes<V(!new)>(l: LeafState<V>, p: nat, now: int)
    ensures NextInLine(l, p, now) <==> PromotesAt(l, 0, p, now)
  {
    if p < |l.localNodes| {
      var mid := Midway(l.localNodes, 0, p, l.nodeId, now);
      LowestAliveIsLowest(mid, l.nodeId);
      RegisteredIff(l.localNodes, l.currentLeaderId);
      assert forall j :: 0 <= j < |mid| ==> mid[j].isAlive == AliveAt(l.localNodes, j, p, l.nodeId, now)
                                             && mid[j].nodeId == l.localNodes[j].nodeId;
    }
  }

  /** A scan promotes the node exactly if at some entry it is next in line, and then tells every other live node once;
      otherwise it changes neither role nor leader and sends nothing. */
  lemma ScanPromotesIff<V(!new)>(l: LeafState<V>, now: int)
    ensures var (r, sent) := Scan(l, now);
            if exists p: nat :: NextInLine(l, p, now)
            then r.role == LocalLeader && r.currentLeaderId == l.nodeId
            else r.role == l.role && r.currentLeaderId == l.currentLeaderId && sent == []
  {
    var c := ClusterScanned(l, now);
    ScanEffect(l, now);
    forall p: nat
      ensures NextInLine(l, p, now) <==> PromotesAt(c, 0, p, now)
    {
      NextInLinePromotes(c, p, now);
    }
    if p: nat :| NextInLine(l, p, now) {
      ScanReachesPromotion(c, 0, p, now);
    }
  }

  /** Whom the scan tells of the promotion. */
  lemma PromotionIsTold<V(!new)>(l: LeafState<V>, now: int, p: nat, t: int)
    requires DistinctIds(l.localNodes) && NextInLine(l, p, now)
    ensures Addressed(Scan(l, now).1, t) ==
            if t != l.nodeId
               && exists j :: 0 <= j < |l.localNodes| && l.localNodes[j].nodeId == t
                              && AliveAt(l.localNodes, j, p, l.nodeId, now)
            then [SelfPromotion(l.nodeId, now)] else []
  {
    var c, sent := ClusterScanned(l, now), Scan(l, now).1;
    ScanEffect(l, now);
    ScanPromotesIff(l, now);
    var q :| PromotesAt(c, 0, q, now)
             && sent == ToLivePeers(Midway(c.localNodes, 0, q, l.nodeId, now), l.nodeId, SelfPromotion(l.nodeId, now));
    assert q == p;
    var mid := Midway(l.localNodes, 0, p, l.nodeId, now);
    ToldOnce(l, mid, now, p, t);
  }

  lemma ToldOnce<V(!new)>(l: LeafState<V>, mid: seq<Descriptor>, now: int, p: nat, t: int)
    requires DistinctIds(l.localNodes) && p < |l.localNodes| && mid == Midway(l.localNodes, 0, p, l.nodeId, now)
    ensures Addressed(ToLivePeers<V>(mid, l.nodeId, SelfPromotion(l.nodeId, now)), t) ==
            if t != l.nodeId
               && exists j :: 0 <= j < |l.localNodes| && l.localNodes[j].nodeId == t
                              && AliveAt(l.localNodes, j, p, l.nodeId, now)
            then [SelfPromotion(l.nodeId, now)] else []
  {
    var m: Message<V> := SelfPromotion(l.nodeId, now);
    assert forall j :: 0 <= j < |mid| ==> mid[j].isAlive == AliveAt(l.localNodes, j, p, l.nodeId, now)
                                           && mid[j].nodeId == l.localNodes[j].nodeId;
    if t == l.nodeId {
      ToLivePeersReaches(mid, l.nodeId, m);
      NothingAddressed(ToLivePeers(mid, l.nodeId, m), t);
    } else {
      LivePeersGetOneMessage(mid, l.nodeId, m, t);
    }
  }

  // ----- Starting up -----

  /** A node that starts asks the leader it follows for its data, unless it leads itself or knows no such node. */
  lemma StartAsksLeader<V(!new)>(l: LeafState<V>)
    ensures var (r, sent) := Boot(l);
            if exists i :: 0 <= i < |l.localNodes| && l.localNodes[i].nodeId == l.currentLeaderId then
              && r == l.(syncTarget := l.currentLeaderId)
              && sent == (if l.nodeId == l.currentLeaderId then []
                          else [Send(l.currentLeaderId, SyncRequest(l.nodeId, l.lastSyncTime))])
            else r == l && sent == []
  {
    RegisteredIff(l.localNodes, l.currentLeaderId);
  }
}
