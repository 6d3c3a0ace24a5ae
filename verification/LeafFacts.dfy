/** What the functions of one leaf node do to its table, its leader and what it sends. */
module LeafFacts {
  import opened Lists
  import opened Leaf

  // ----- Tables -----

  predicate SameIds(a: seq<Descriptor>, b: seq<Descriptor>) {
    |a| == |b| && forall i :: 0 <= i < |a| ==> a[i].nodeId == b[i].nodeId
  }

  predicate DistinctIds(nodes: seq<Descriptor>) {
    forall i, j :: 0 <= i < j < |nodes| ==> nodes[i].nodeId != nodes[j].nodeId
  }

  function Entry<V>(l: LeafState<V>, id: int): (d: Descriptor)
    requires Registered(l.localNodes, id)
    ensures d.nodeId == id
  {
    l.localNodes[IndexOfNode(l.localNodes, id)]
  }

  lemma SameIdsSameIndex(a: seq<Descriptor>, b: seq<Descriptor>, id: int)
    requires SameIds(a, b)
    ensures IndexOfNode(a, id) == IndexOfNode(b, id)
  {
  }

  /** A heartbeat of a locally registered node that the cluster table does not list refreshes its
      local entry and no other. */
  lemma HeartBeatEffect<V(!new)>(l: LeafState<V>, id: int, at: int, clusterType: int, now: int)
    requires l.clusterNodes == [] && Registered(l.localNodes, id)
    ensures var r := ReceiveHeartBeat(l, id, at, clusterType, now);
            && r == l.(localNodes := r.localNodes)
            && SameIds(l.localNodes, r.localNodes)
            && forall j :: Registered(l.localNodes, j) ==>
                 Registered(r.localNodes, j) && Entry(r, j) == if j == id then Seen(Entry(l, j), at) else Entry(l, j)
  {
    var r := ReceiveHeartBeat(l, id, at, clusterType, now);
    assert !Registered(l.clusterNodes, id);
    forall j | Registered(l.localNodes, j)
      ensures Registered(r.localNodes, j) && Entry(r, j) == if j == id then Seen(Entry(l, j), at) else Entry(l, j)
    {
      SameIdsSameIndex(l.localNodes, r.localNodes, j);
    }
  }

  /** The first table hit ends the search: a node listed in both tables never has its local entry refreshed. */
  lemma LocalEntryRefreshedIff<V(!new)>(l: LeafState<V>, id: int, at: int, clusterType: int, now: int)
    requires Registered(l.localNodes, id) && Entry(l, id).lastSeen != at
    ensures var r := ReceiveHeartBeat(l, id, at, clusterType, now);
            Registered(r.localNodes, id) && (Entry(r, id).lastSeen == at <==> !Registered(l.clusterNodes, id))
  {
    if !Registered(l.clusterNodes, id) {
      SameIdsSameIndex(l.localNodes, Refreshed(l.localNodes, id, at), id);
    }
  }

  // ----- The scan -----

  /** The table while entry p is being acted upon: entries i to p have been scanned, later ones not yet. */
  function Midway(nodes: seq<Descriptor>, i: nat, p: nat, self: int, now: int): (r: seq<Descriptor>)
    requires i <= p < |nodes|
    ensures |r| == |nodes|
    ensures forall j :: 0 <= j < |r| ==> r[j] == if i <= j <= p then ScanEntry(nodes[j], self, now) else nodes[j]
  {
    seq(|nodes|, j requires 0 <= j < |nodes| => if i <= j <= p then ScanEntry(nodes[j], self, now) else nodes[j])
  }

  /** The scan from entry i promotes the node when it reaches the overdue leader at entry p. */
  ghost predicate PromotesAt<V>(l: LeafState<V>, i: nat, p: nat, now: int) {
    && i <= p < |l.localNodes|
    && l.role == PromotionReadyReplica
    && l.localNodes[p].nodeId == l.localClusterLeader
    && l.localNodes[p].nodeId != l.nodeId
    && Overdue(l.localNodes[p], now)
    && CurrentLeader(l).Some?
    && !SomeAlive(Midway(l.localNodes, i, p, l.nodeId, now), l.currentLeaderId)
    && LowestAlive(Midway(l.localNodes, i, p, l.nodeId, now), l.nodeId) == l.nodeId
  }

  /** What a scan leaves alone, and the two things it can do beyond marking entries. */
  ghost predicate ScanOutcome<V>(l: LeafState<V>, i: nat, now: int, r: LeafState<V>, sent: seq<Send<V>>) {
    && |r.localNodes| == |l.localNodes|
    && (forall j :: 0 <= j < |l.localNodes| ==>
         r.localNodes[j] == if i <= j then ScanEntry(l.localNodes[j], l.nodeId, now) else l.localNodes[j])
    && r == l.(localNodes := r.localNodes, currentLeaderId := r.currentLeaderId, role := r.role)
    && (|| (r.currentLeaderId == l.currentLeaderId && r.role == l.role && sent == [])
        || exists p :: PromotesAt(l, i, p, now)
                       && r.currentLeaderId == l.nodeId && r.role == LocalLeader
                       && sent == ToLivePeers(Midway(l.localNodes, i, p, l.nodeId, now), l.nodeId,
                          SelfPromotion(l.nodeId, now)))
  }

  lemma {:induction false} NoSecondPromotion<V(!new)>(l: LeafState<V>, i: nat, now: int)
    requires l.role == LocalLeader
    ensures ScanFrom(l, i, now).1 == []
    ensures ScanFrom(l, i, now).0 == l.(localNodes := ScanFrom(l, i, now).0.localNodes)
    decreases |l.localNodes| - i
  {
    if i >= |l.localNodes| {
    } else {
      NoSecondPromotion(ScanStep(l, i, now).0, i + 1, now);
    }
  }

  lemma {:induction false} ScanFromTable<V(!new)>(l: LeafState<V>, i: nat, now: int)
    ensures var r := ScanFrom(l, i, now).0;
            && |r.localNodes| == |l.localNodes|
            && (forall j :: 0 <= j < |l.localNodes| ==>
                 r.localNodes[j] == if i <= j then ScanEntry(l.localNodes[j], l.nodeId, now) else l.localNodes[j])
            && r == l.(localNodes := r.localNodes, currentLeaderId := r.currentLeaderId, role := r.role)
    decreases |l.localNodes| - i
  {
    if i >= |l.localNodes| {
    } else {
      ScanFromTable(ScanStep(l, i, now).0, i + 1, now);
    }
  }

  /** A promotion found further on is a promotion of the scan that starts one entry earlier. */
  lemma {:induction false} PromotesEarlier<V(!new)>(l: LeafState<V>, i: nat, p: nat, now: int)
    requires i < |l.localNodes|
    requires var marked := l.(localNodes := l.localNodes[i := ScanEntry(l.localNodes[i], l.nodeId, now)]);
             PromotesAt(marked, i + 1, p, now)
    ensures PromotesAt(l, i, p, now)
    ensures var marked := l.(localNodes := l.localNodes[i := ScanEntry(l.localNodes[i], l.nodeId, now)]);
            Midway(l.localNodes, i, p, l.nodeId, now) == Midway(marked.localNodes, i + 1, p, l.nodeId, now)
  {
    var marked := l.(localNodes := l.localNodes[i := ScanEntry(l.localNodes[i], l.nodeId, now)]);
    assert Midway(l.localNodes, i, p, l.nodeId, now) == Midway(marked.localNodes, i + 1, p, l.nodeId, now);
    SameIdsSameIndex(l.localNodes, marked.localNodes, l.currentLeaderId);
  }

  lemma {:induction false} PromotesHere<V(!new)>(l: LeafState<V>, i: nat, now: int)
    requires i < |l.localNodes|
    requires var r := ScanStep(l, i, now); r.0.role != l.role
    ensures PromotesAt(l, i, i, now)
    ensures var r := ScanStep(l, i, now);
            r.0.role == LocalLeader && r.0.currentLeaderId == l.nodeId
            && r.1 == ToLivePeers(Midway(l.localNodes, i, i, l.nodeId, now), l.nodeId, SelfPromotion(l.nodeId, now))
  {
    var marked := l.(localNodes := l.localNodes[i := ScanEntry(l.localNodes[i], l.nodeId, now)]);
    assert Midway(l.localNodes, i, i, l.nodeId, now) == marked.localNodes;
    SameIdsSameIndex(l.localNodes, marked.localNodes, l.currentLeaderId);
  }

  lemma {:induction false} ScanFromOutcome<V(!new)>(l: LeafState<V>, i: nat, now: int)
    ensures ScanOutcome(l, i, now, ScanFrom(l, i, now).0, ScanFrom(l, i, now).1)
    decreases |l.localNodes| - i
  {
    hide LowestAlive, SomeAlive, Midway, CurrentLeader, ToLivePeers;
    ScanFromTable(l, i, now);
    if i >= |l.localNodes| {
    } else {
      var (acted, sent) := ScanStep(l, i, now);
      var (r, more) := ScanFrom(acted, i + 1, now);
      if acted.role == l.role {
        ScanFromOutcome(acted, i + 1, now);
        assert sent + more == more;
        if !(r.currentLeaderId == l.currentLeaderId && r.role == l.role && more == []) {
          var p :| PromotesAt(acted, i + 1, p, now)
                   && r.currentLeaderId == l.nodeId && r.role == LocalLeader
                   && more == ToLivePeers(Midway(acted.localNodes, i + 1, p, l.nodeId, now), l.nodeId,
                      SelfPromotion(l.nodeId, now));
          PromotesEarlier(l, i, p, now);
        }
      } else {
        PromotesHere(l, i, now);
        NoSecondPromotion(acted, i + 1, now);
        assert sent + more == sent;
      }
    }
  }

  /** A scan that meets the overdue leader when the node is next in line makes the node a leader. */
  lemma {:induction false} ScanReachesPromotion<V(!new)>(l: LeafState<V>, i: nat, p: nat, now: int)
    requires PromotesAt(l, i, p, now)
    ensures ScanFrom(l, i, now).0.role == LocalLeader
    decreases p - i
  {
    var marked := l.(localNodes := l.localNodes[i := ScanEntry(l.localNodes[i], l.nodeId, now)]);
    var acted, mid := ScanStep(l, i, now).0, Midway(l.localNodes, i, p, l.nodeId, now);
    SameIdsSameIndex(l.localNodes, marked.localNodes, l.currentLeaderId);
    if i == p {
      assert mid == marked.localNodes;
      NoSecondPromotion(acted, i + 1, now);
    } else if acted.role != l.role {
      PromotesHere(l, i, now);
      NoSecondPromotion(acted, i + 1, now);
    } else {
      assert acted == marked;
      assert mid == Midway(acted.localNodes, i + 1, p, l.nodeId, now);
      ScanReachesPromotion(acted, i + 1, p, now);
    }
  }

  /** The node once the pass over its cluster table is done. */
  function ClusterScanned<V>(l: LeafState<V>, now: int): (r: LeafState<V>)
    ensures l.clusterNodes == [] ==> r == l
  {
    l.(clusterNodes := ScanTable(l.clusterNodes, l.nodeId, now))
  }

  lemma ScanEffect<V(!new)>(l: LeafState<V>, now: int)
    ensures ScanOutcome(ClusterScanned(l, now), 0, now, Scan(l, now).0, Scan(l, now).1)
    ensures var r := Scan(l, now).0;
            |r.clusterNodes| == |l.clusterNodes|
            && forall j :: 0 <= j < |l.clusterNodes| ==>
               r.clusterNodes[j] == ScanEntry(l.clusterNodes[j], l.nodeId, now)
  {
    ScanFromOutcome(ClusterScanned(l, now), 0, now);
  }

  lemma ScanEntries<V(!new)>(l: LeafState<V>, now: int, id: int)
    requires Registered(l.localNodes, id)
    ensures var r := Scan(l, now).0;
            Registered(r.localNodes, id) && Entry(r, id) == ScanEntry(Entry(l, id), l.nodeId, now)
  {
    ScanEffect(l, now);
    SameIdsSameIndex(l.localNodes, Scan(l, now).0.localNodes, id);
  }

  lemma {:induction false} CallbacksFromOnce<V(!new)>(l: LeafState<V>, i: nat, now: int)
    requires DistinctIds(l.localNodes)
    ensures var k := IndexOfNode(l.localNodes, l.localClusterLeader);
            CallbacksFrom(l, i, now) == if i <= k < |l.localNodes| && LeaderFails(l, k, now) then 1 else 0
    decreases |l.localNodes| - i
  {
    if i >= |l.localNodes| {
    } else {
      var acted := ScanStep(l, i, now).0;
      SameIdsSameIndex(l.localNodes, acted.localNodes, l.localClusterLeader);
      CallbacksFromOnce(acted, i + 1, now);
    }
  }

  /** A scan calls on_leader_failure_detected once if it finds the watched leader overdue, and never else. */
  lemma CallbackOnce<V(!new)>(l: LeafState<V>, now: int)
    requires DistinctIds(l.localNodes)
    ensures var leader := l.localClusterLeader;
            Callbacks(l, now) ==
            if leader != l.nodeId && Registered(l.localNodes, leader) && Overdue(Entry(l, leader), now) then 1 else 0
  {
    CallbacksFromOnce(ClusterScanned(l, now), 0, now);
  }

  // ----- Folds over a table -----

  lemma {:induction false} LowestAliveIsLowest(nodes: seq<Descriptor>, start: int)
    ensures LowestAlive(nodes, start) <= start
    ensures forall i :: 0 <= i < |nodes| && nodes[i].isAlive ==> LowestAlive(nodes, start) <= nodes[i].nodeId
    ensures LowestAlive(nodes, start) == start
            || exists i :: 0 <= i < |nodes| && nodes[i].isAlive && nodes[i].nodeId == LowestAlive(nodes, start)
  {
    if nodes == [] {
    } else {
      LowestAliveIsLowest(Init(nodes), start);
      var before := LowestAlive(Init(nodes), start);
      if LowestAlive(nodes, start) == before && before != start {
        var i :| 0 <= i < |Init(nodes)| && Init(nodes)[i].isAlive && Init(nodes)[i].nodeId == before;
        assert nodes[i].nodeId == before;
      }
    }
  }

  lemma {:induction false} ToLivePeersReaches<V(!new)>(nodes: seq<Descriptor>, self: int, m: Message<V>)
    ensures forall s :: s in ToLivePeers(nodes, self, m) ==> s.message == m && s.destination != self
    ensures forall s :: s in ToLivePeers(nodes, self, m) ==>
              exists i :: 0 <= i < |nodes| && nodes[i].nodeId == s.destination
    ensures forall i :: 0 <= i < |nodes| && nodes[i].isAlive && nodes[i].nodeId != self ==>
              Send(nodes[i].nodeId, m) in ToLivePeers(nodes, self, m)
  {
    if nodes == [] {
    } else {
      ToLivePeersReaches(Init(nodes), self, m);
      forall s | s in ToLivePeers(nodes, self, m)
        ensures exists i :: 0 <= i < |nodes| && nodes[i].nodeId == s.destination
      {
        if s in ToLivePeers(Init(nodes), self, m) {
          var i :| 0 <= i < |Init(nodes)| && Init(nodes)[i].nodeId == s.destination;
          assert nodes[i].nodeId == s.destination;
        } else {
          assert nodes[|nodes| - 1].nodeId == s.destination;
        }
      }
    }
  }

  lemma {:induction false} ToPeersReaches<V(!new)>(nodes: seq<Descriptor>, self: int, m: Message<V>)
    ensures forall s :: s in ToPeers(nodes, self, m) ==> s.message == m && s.destination != self
  {
    if nodes == [] {
    } else {
      ToPeersReaches(Init(nodes), self, m);
    }
  }

  // ----- Whole runs of one node's tables -----

  datatype TableOp = Beat(id: int, at: int, clusterType: int, now: int) | Pass(now: int)

  function ApplyTableOp<V>(l: LeafState<V>, op: TableOp): LeafState<V> {
    match op
    case Beat(id, at, clusterType, now) => ReceiveHeartBeat(l, id, at, clusterType, now)
    case Pass(now) => Scan(l, now).0
  }

  function ApplyTableOps<V>(l: LeafState<V>, ops: seq<TableOp>): LeafState<V> {
    if ops == [] then l else ApplyTableOp(ApplyTableOps(l, Init(ops)), Last(ops))
  }

  /** Every id occurs at most once in the two tables taken together. */
  predicate OneEntryEach<V>(l: LeafState<V>) {
    DistinctIds(l.clusterNodes + l.localNodes)
  }

  /** Entries keep their ids and places; new ones only come at the end. */
  predicate Extends(nodes: seq<Descriptor>, more: seq<Descriptor>) {
    |nodes| <= |more| && forall i :: 0 <= i < |nodes| ==> more[i].nodeId == nodes[i].nodeId
  }

  lemma {:induction false} TableOpKeepsEntries<V(!new)>(l: LeafState<V>, op: TableOp)
    requires OneEntryEach(l)
    ensures OneEntryEach(ApplyTableOp(l, op))
    ensures Extends(l.localNodes, ApplyTableOp(l, op).localNodes)
    ensures Extends(l.clusterNodes, ApplyTableOp(l, op).clusterNodes)
  {
    var r := ApplyTableOp(l, op);
    match op
    case Pass(now) =>
      var c := l.(clusterNodes := ScanTable(l.clusterNodes, l.nodeId, now));
      ScanFromTable(c, 0, now);
      assert SameIds(l.clusterNodes + l.localNodes, r.clusterNodes + r.localNodes);
    case Beat(id, at, clusterType, now) =>
      var all, all' := l.clusterNodes + l.localNodes, r.clusterNodes + r.localNodes;
      if Registered(l.clusterNodes, id) || Registered(l.localNodes, id) {
        assert SameIds(all, all');
      } else {
        assert forall i :: 0 <= i < |all| ==> all[i].nodeId != id;
        if clusterType == 1 {
          forall i, j | 0 <= i < j < |all'|
            ensures all'[i].nodeId != all'[j].nodeId
          {
            var n := |l.clusterNodes|;
            var i0, j0 := if i < n then i else i - 1, if j < n then j else j - 1;
            assert i != n ==> all'[i] == all[i0];
            assert j != n ==> all'[j] == all[j0];
          }
        } else {
          assert all' == all + [Descriptor(id, now, -1, true)];
        }
      }
  }

  /** Over any run of heartbeats (registered senders or not) and scans, each id keeps at most one entry,
      no local entry is ever dropped, and a heartbeat of a locally registered node refreshes the very
      entry that the scan reads. */
  lemma {:induction false} TablesStayConsistent<V(!new)>(l: LeafState<V>, ops: seq<TableOp>)
    requires OneEntryEach(l)
    ensures var r := ApplyTableOps(l, ops);
            && OneEntryEach(r)
            && Extends(l.localNodes, r.localNodes)
            && forall id, at, clusterType, now :: Registered(l.localNodes, id) ==>
                 var h := ReceiveHeartBeat(r, id, at, clusterType, now);
                 Registered(h.localNodes, id) && Entry(h, id).isAlive && Entry(h, id).lastSeen == at
  {
    if ops == [] {
    } else {
      TablesStayConsistent(l, Init(ops));
      TableOpKeepsEntries(ApplyTableOps(l, Init(ops)), Last(ops));
    }
    var r := ApplyTableOps(l, ops);
    forall id, at, clusterType, now | Registered(l.localNodes, id)
      ensures var h := ReceiveHeartBeat(r, id, at, clusterType, now);
              Registered(h.localNodes, id) && Entry(h, id).isAlive && Entry(h, id).lastSeen == at
    {
      var all, i := r.clusterNodes + r.localNodes, IndexOfNode(l.localNodes, id);
      assert all[|r.clusterNodes| + i].nodeId == id;
      assert Registered(r.localNodes, id);
      assert forall j :: 0 <= j < |r.clusterNodes| ==> r.clusterNodes[j] == all[j];
      SameIdsSameIndex(r.localNodes, Refreshed(r.localNodes, id, at), id);
    }
  }
}
