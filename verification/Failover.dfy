/** What the cluster does when its initial leader crashes: detection, promotion, agreement. */
module Failover {
  import opened Lists
  import opened Leaf
  import opened LeafFacts
  import opened Cluster
  import opened Leadership

  // ----- Detection -----

  lemma {:induction false} NoHeartBeatIn<V(!new)>(q: seq<Message<V>>, i: nat)
    requires Stamps(q) == [] && i < |q|
    ensures !q[i].HeartBeat?
  {
    if i >= |q| - 1 {
    } else {
      assert Init(q)[i] == q[i];
      NoHeartBeatIn(Init(q), i);
    }
  }

  /** Node j has crashed and node i has received every heartbeat it sent, the last one stamped `last`. */
  ghost predicate SilentSince<V>(s: System<V>, i: int, j: int, last: int) {
    && i in s.leaf && j in s.leaf && i != j && j !in s.up
    && Stamps(Queue(s.net, j, i)) == []
    && Registered(s.leaf[i].localNodes, j) && Entry(s.leaf[i], j).lastSeen == last
  }

  lemma SilenceGoesOn<V(!new)>(s: System<V>, a: Action<V>, leader: int, i: int, j: int, last: int)
    requires Static(s, leader) && Enabled(s, a) && SilentSince(s, i, j, last)
    ensures SilentSince(Apply(s, a), i, j, last)
    ensures MarkedDead(s.leaf[i], j) ==> MarkedDead(Apply(s, a).leaf[i], j)
    ensures a == ScanTables(i) && s.now > last + HEARTBEAT_LIMIT ==> MarkedDead(Apply(s, a).leaf[i], j)
  {
    hide Static;
    var q := Queue(s.net, j, i);
    if a.Drop? && a.sender == j && a.node == i {
      NoHeartBeatIn(q, a.position);
    }
    if a.Deliver? && a.sender == j && a.node == i {
      NoHeartBeatIn(q, 0);
    }
    StampsAfter(s, a, leader, j, i);
    EntryAfter(s, a, leader, i, j);
    StepKeepsStatic(s, a, leader);
  }

  /** A crashed peer whose heartbeats have all arrived is marked dead by the first scan later than the
      limit after the last of them, and stays so. */
  lemma {:induction false} CrashedPeerIsDetected<V(!new)>(states: seq<System<V>>, actions: seq<Action<V>>, leader: int,
                                                          i: int, j: int, last: int, m: nat, k: nat, n: nat)
    requires IsRun(states, actions) && Initial(states[0], leader)
    requires m <= k < n < |states|
    requires SilentSince(states[m], i, j, last)
    requires actions[k] == ScanTables(i) && states[k].now > last + HEARTBEAT_LIMIT
    ensures SilentSince(states[n], i, j, last) && MarkedDead(states[n].leaf[i], j)
    decreases n
  {
    hide Static, Initial;
    RunKeepsStatic(states, actions, leader, n - 1);
    if k == n - 1 {
      SilenceLasts(states, actions, leader, i, j, last, m, k);
    } else {
      CrashedPeerIsDetected(states, actions, leader, i, j, last, m, k, n - 1);
    }
    SilenceGoesOn(states[n - 1], actions[n - 1], leader, i, j, last);
  }

  lemma {:induction false} SilenceLasts<V(!new)>(states: seq<System<V>>, actions: seq<Action<V>>, leader: int, i: int,
                                                 j: int, last: int, m: nat, n: nat)
    requires IsRun(states, actions) && Initial(states[0], leader)
    requires m <= n < |states| && SilentSince(states[m], i, j, last)
    ensures SilentSince(states[n], i, j, last)
    decreases n
  {
    hide Static, Initial, SilentSince;
    if m == n {
    } else {
      SilenceLasts(states, actions, leader, i, j, last, m, n - 1);
      RunKeepsStatic(states, actions, leader, n - 1);
      SilenceGoesOn(states[n - 1], actions[n - 1], leader, i, j, last);
    }
  }

  // ----- How often the failure callback fires -----

  /** How often a step calls on_leader_failure_detected at node i. */
  function CallbacksIn<V>(s: System<V>, a: Action<V>, i: int): nat {
    if a == ScanTables(i) && i in s.leaf then Callbacks(s.leaf[i], s.now) else 0
  }

  /** A heartbeat of the initial leader reaches node i while its entry there is dead. */
  ghost predicate Revives<V>(s: System<V>, a: Action<V>, i: int, leader: int) {
    && a.Deliver? && a.sender == leader && a.node == i && i in s.leaf && MarkedDead(s.leaf[i], leader)
    && Queue(s.net, leader, i) != [] && Queue(s.net, leader, i)[0].HeartBeat?
  }

  function Firings<V>(states: seq<System<V>>, actions: seq<Action<V>>, i: int, n: nat): nat
    requires n <= |actions| && |states| == |actions| + 1
  {
    if n == 0 then 0 else Firings(states, actions, i, n - 1) + CallbacksIn(states[n - 1], actions[n - 1], i)
  }

  ghost function Revivals<V>(states: seq<System<V>>, actions: seq<Action<V>>, i: int, leader: int, n: nat): nat
    requires n <= |actions| && |states| == |actions| + 1
  {
    if n == 0 then 0
    else
      Revivals(states, actions, i, leader, n - 1) + if Revives(states[n - 1], actions[n - 1], i, leader) then 1 else 0
  }

  lemma NobodyStartsDead<V(!new)>(s: System<V>, leader: int, i: int)
    requires Initial(s, leader) && i in s.leaf
    ensures !MarkedDead(s.leaf[i], leader)
  {
  }

  /** The callback has fired once more than the leader was revived while its entry is dead, and as often
      otherwise: so at most once more than the number of revivals. */
  lemma {:induction false} FiringsMatchRevivals<V(!new)>(states: seq<System<V>>, actions: seq<Action<V>>, i: int,
                                                         leader: int, n: nat)
    requires IsRun(states, actions) && Initial(states[0], leader) && n <= |actions|
    requires i in states[0].leaf && i != leader
    ensures i in states[n].leaf
    ensures Firings(states, actions, i, n) ==
            Revivals(states, actions, i, leader, n) + if MarkedDead(states[n].leaf[i], leader) then 1 else 0
    decreases n
  {
    hide Static, Initial;
    RunKeepsStatic(states, actions, leader, n);
    if n == 0 {
      NobodyStartsDead(states[0], leader, i);
    } else {
      RunKeepsStatic(states, actions, leader, n - 1);
      FiringsMatchRevivals(states, actions, i, leader, n - 1);
      var s, a := states[n - 1], actions[n - 1];
      Member(s, leader, i);
      EntryAfter(s, a, leader, i, leader);
      CallbackOnce(s.leaf[i], s.now);
    }
  }

  // ----- Failover -----

  /** The lowest id among the initial replicas. */
  ghost predicate LowestReplica<V>(s: System<V>, leader: int, r: int) {
    r in s.leaf && r != leader && forall j :: j in s.leaf && j != leader ==> r <= j
  }

  ghost predicate PromotionPending<V>(s: System<V>, r: int, i: int) {
    exists k :: 0 <= k < |Queue(s.net, r, i)| && Queue(s.net, r, i)[k].SelfPromotion?
  }

  /** Every node follows the initial leader or the lowest replica; only that replica can have taken over. */
  ghost predicate Roles<V>(s: System<V>, leader: int, r: int) {
    && r in s.leaf
    && (forall i :: i in s.leaf ==> s.leaf[i].currentLeaderId == leader || s.leaf[i].currentLeaderId == r)
    && (forall i :: i in s.leaf && i != r ==>
          s.leaf[i].role == if i == leader then LocalLeader else PromotionReadyReplica)
    && (s.leaf[r].role == if s.leaf[r].currentLeaderId == r then LocalLeader else PromotionReadyReplica)
  }

  /** Once the replica has taken over, every live node follows it or has its promotion message coming. */
  ghost predicate Told<V>(s: System<V>, leader: int, r: int) {
    r in s.leaf && s.leaf[r].currentLeaderId == r ==>
      && leader !in s.up
      && forall i :: i in s.up && i in s.leaf && i != r ==> s.leaf[i].currentLeaderId == r || PromotionPending(s, r, i)
  }

  ghost predicate OnlyFrom<V>(s: System<V>, r: int) {
    forall f, i, k :: 0 <= k < |Queue(s.net, f, i)| && Queue(s.net, f, i)[k].SelfPromotion? ==> f == r
  }

  ghost predicate OthersUp<V>(s: System<V>, leader: int) {
    forall i :: i in s.leaf && i != leader ==> i in s.up
  }

  /** Who can be leading, and who still has to be told. */
  ghost predicate Succession<V>(s: System<V>, leader: int, r: int) {
    LowestReplica(s, leader, r) && OthersUp(s, leader) && Roles(s, leader, r) && Told(s, leader, r) && OnlyFrom(s, r)
  }

  /** Only the initial leader crashes and no promotion message is lost. */
  ghost predicate MildStep<V>(s: System<V>, a: Action<V>, leader: int) {
    && (a.Crash? ==> a.node == leader)
    && !(a.Drop? && a.position < |Queue(s.net, a.sender, a.node)|
       && Queue(s.net, a.sender, a.node)[a.position].SelfPromotion?)
  }

  lemma InitialSuccession<V(!new)>(s: System<V>, leader: int, r: int)
    requires Initial(s, leader) && LowestReplica(s, leader, r)
    ensures Succession(s, leader, r)
  {
    hide Initial;
    FreshRoles(s, leader);
  }

  lemma FreshRoles<V(!new)>(s: System<V>, leader: int)
    requires Initial(s, leader)
    ensures s.up == s.leaf.Keys && s.net == map[]
    ensures forall i :: i in s.leaf ==> s.leaf[i].currentLeaderId == leader
    ensures forall i :: i in s.leaf ==> s.leaf[i].role == if i == leader then LocalLeader else PromotionReadyReplica
  {
    forall i | i in s.leaf
      ensures s.leaf[i].currentLeaderId == leader
      ensures s.leaf[i].role == if i == leader then LocalLeader else PromotionReadyReplica
    {
      assert StaticLeaf(s.leaf[i], i, leader, s.leaf.Keys) && FreshLeaf(s.leaf[i], leader);
    }
  }

  /** A step keeps a promotion message on a link until it is delivered. */
  lemma PendingAfter<V(!new)>(s: System<V>, a: Action<V>, leader: int, r: int, i: int)
    requires Enabled(s, a) && MildStep(s, a, leader) && PromotionPending(s, r, i)
    ensures PromotionPending(Apply(s, a), r, i)
            || (a.Deliver? && a.sender == r && a.node == i && Queue(s.net, r, i)[0].SelfPromotion?)
  {
    QueueAfter(s, a, r, i);
    var q, q' := Queue(s.net, r, i), Queue(Apply(s, a).net, r, i);
    var k :| 0 <= k < |q| && q[k].SelfPromotion?;
    if a.Deliver? && a.sender == r && a.node == i {
      if k > 0 {
        assert q'[k - 1] == q[k];
      }
    } else if a.Drop? && a.sender == r && a.node == i {
      assert q'[if k < a.position then k else k - 1] == q[k];
    } else {
      assert q'[k] == q[k];
    }
  }

  /** Only a scan sends promotion messages. */
  lemma NewPromotion<V(!new)>(s: System<V>, a: Action<V>, leader: int, f: int, i: int, k: nat)
    requires Static(s, leader) && Enabled(s, a)
    requires k < |Queue(Apply(s, a).net, f, i)| && Queue(Apply(s, a).net, f, i)[k].SelfPromotion?
    ensures (exists k' :: 0 <= k' < |Queue(s.net, f, i)| && Queue(s.net, f, i)[k'].SelfPromotion?)
            || (a == ScanTables(f) && Scan(s.leaf[f], s.now).1 != [])
  {
    hide Static, Scan;
    QueueAfter(s, a, f, i);
    var q, q' := Queue(s.net, f, i), Queue(Apply(s, a).net, f, i);
    var m := q'[k];
    if m in q {
      var k' :| 0 <= k' < |q| && q[k'] == m;
    } else {
      assert IsLocal(a) && f == a.node && m in Addressed(Local(s, a).1, i);
      AddressedIsSent(Local(s, a).1, i);
      Member(s, leader, f);
      OnlyScansSendPromotions(s, a, Send(i, m));
    }
  }

  lemma OnlyScansSendPromotions<V(!new)>(s: System<V>, a: Action<V>, m: Send<V>)
    requires Enabled(s, a) && IsLocal(a) && s.leaf[a.node].clusterNodes == []
    requires m in Local(s, a).1 && m.message.SelfPromotion?
    ensures a.ScanTables?
  {
    var l := s.leaf[a.node];
    match a
    case Beat(_, clusterType) => ToPeersReaches<V>(l.localNodes, l.nodeId, HeartBeat(l.nodeId, s.now, clusterType));
    case Write(_, key, value, _) => ToLivePeersReaches<V>(l.localNodes, l.nodeId, Push(l.nodeId, s.now, key, value));
    case _ =>
  }

  /** The promoting scan of the lowest replica tells every other live node. */
  lemma PromotionReachesAll<V(!new)>(s: System<V>, r: int, leader: int, i: int)
    requires Static(s, leader) && r in s.up && i in s.up && i != r
    requires Scan(s.leaf[r], s.now).0.role != s.leaf[r].role
    requires !MarkedDead(s.leaf[r], i) && !MarkedDead(Scan(s.leaf[r], s.now).0, i)
    ensures PromotionPending(Apply(s, ScanTables(r)), r, i)
  {
    var s', sent := Apply(s, ScanTables(r)), Scan(s.leaf[r], s.now).1;
    PromotionIsSent(s, r, leader, i);
    AddressedIsSent(sent, i);
    QueueAfter(s, ScanTables(r), r, i);
    assert SelfPromotion(r, s.now) in Queue(s'.net, r, i);
  }

  lemma PromotionIsSent<V(!new)>(s: System<V>, r: int, leader: int, i: int)
    requires Static(s, leader) && r in s.up && i in s.up && i != r
    requires !MarkedDead(s.leaf[r], i) && !MarkedDead(Scan(s.leaf[r], s.now).0, i)
    requires Scan(s.leaf[r], s.now).0.role != s.leaf[r].role
    ensures Send(i, SelfPromotion(r, s.now)) in Scan(s.leaf[r], s.now).1
  {
    var l := s.leaf[r];
    Member(s, leader, r);
    hide Static;
    ScanEffect(l, s.now);
    var l', sent := Scan(l, s.now).0, Scan(l, s.now).1;
    var p :| PromotesAt(l, 0, p, s.now)
             && sent == ToLivePeers(Midway(l.localNodes, 0, p, l.nodeId, s.now), l.nodeId,
                SelfPromotion(l.nodeId, s.now));
    hide PromotesAt, ScanOutcome;
    var mid, k := Midway(l.localNodes, 0, p, r, s.now), IndexOfNode(l.localNodes, i);
    ToLivePeersReaches<V>(mid, r, SelfPromotion(r, s.now));
    ScanEntries(l, s.now, i);
    assert Registered(l.localNodes, i);
    assert mid[k].isAlive && mid[k].nodeId == i;
  }

  /** How a step changes a node's role and leader. */
  lemma LeaderAfter<V(!new)>(s: System<V>, a: Action<V>, s': System<V>, leader: int, i: int)
    requires Static(s, leader) && Enabled(s, a) && s' == Apply(s, a) && i in s.leaf
    ensures i in s'.leaf
    ensures || (s'.leaf[i].role == s.leaf[i].role && s'.leaf[i].currentLeaderId == s.leaf[i].currentLeaderId)
            || (a == ScanTables(i) && s.leaf[i].role == PromotionReadyReplica
                && s'.leaf[i].role == LocalLeader && s'.leaf[i].currentLeaderId == i)
            || (a.Deliver? && a.node == i && Queue(s.net, a.sender, i)[0].SelfPromotion? && a.sender != i
                && s'.leaf[i].role == s.leaf[i].role && s'.leaf[i].currentLeaderId == a.sender)
    ensures a.Deliver? && a.node == i && Queue(s.net, a.sender, i)[0].SelfPromotion? ==>
            s'.leaf[i].currentLeaderId == a.sender
  {
    hide Static, Handle, Scan, Dispatch, Consumed;
    Member(s, leader, i);
    if IsLocal(a) && a.node == i {
      if a.ScanTables? {
        ScanEffect(s.leaf[i], s.now);
      } else {
        OnlyScansPromote(s, a, leader);
      }
    }
  }

  /** A node other than the lowest replica never promotes itself while the detector is accurate. */
  lemma OnlyLowestPromotes<V(!new)>(s: System<V>, i: int, s': System<V>, leader: int, r: int)
    requires Static(s, leader) && Succession(s, leader, r) && i in s.up && s' == Apply(s, ScanTables(i))
    requires !Suspects(s) && !Suspects(s')
    requires Scan(s.leaf[i], s.now).0.role != s.leaf[i].role
    ensures i == r && leader !in s.up
  {
    PromotionIsJustified(s, i, leader);
  }

  lemma SuccessionLinksAfter<V(!new)>(s: System<V>, a: Action<V>, s': System<V>, leader: int, r: int, f: int, i: int,
                                      k: nat)
    requires Static(s, leader) && Enabled(s, a) && s' == Apply(s, a) && Succession(s, leader, r)
    requires !Suspects(s) && !Suspects(s')
    requires k < |Queue(s'.net, f, i)| && Queue(s'.net, f, i)[k].SelfPromotion?
    ensures f == r
  {
    NewPromotion(s, a, leader, f, i, k);
    if a == ScanTables(f) && Scan(s.leaf[f], s.now).1 != [] {
      Member(s, leader, f);
      ScanEffect(s.leaf[f], s.now);
      OnlyLowestPromotes(s, f, s', leader, r);
    }
  }

  lemma SuccessionLeavesAfter<V(!new)>(s: System<V>, a: Action<V>, s': System<V>, leader: int, r: int, i: int)
    requires Static(s, leader) && Enabled(s, a) && s' == Apply(s, a) && Succession(s, leader, r)
    requires !Suspects(s) && !Suspects(s') && i in s.leaf
    ensures i in s'.leaf
    ensures s'.leaf[i].currentLeaderId == leader || s'.leaf[i].currentLeaderId == r
    ensures i != r ==> s'.leaf[i].role == if i == leader then LocalLeader else PromotionReadyReplica
    ensures i == r ==> s'.leaf[r].role == if s'.leaf[r].currentLeaderId == r then LocalLeader else PromotionReadyReplica
    ensures i == r && s'.leaf[r].currentLeaderId == r && s.leaf[r].currentLeaderId != r ==>
              a == ScanTables(r) && Scan(s.leaf[r], s.now).0.role != s.leaf[r].role && leader !in s.up
  {
    LeaderAfter(s, a, s', leader, i);
    if a == ScanTables(i) && s'.leaf[i].role != s.leaf[i].role {
      OnlyLowestPromotes(s, i, s', leader, r);
    }
  }

  lemma PendingOrToldAfter<V(!new)>(s: System<V>, a: Action<V>, s': System<V>, leader: int, r: int, i: int)
    requires Static(s, leader) && Enabled(s, a) && s' == Apply(s, a) && Succession(s, leader, r)
    requires !Suspects(s) && !Suspects(s') && MildStep(s, a, leader)
    requires i in s.up && i in s.leaf && i != r && r in s.up
    requires r in s'.up && i in s'.up && r in s'.leaf && s'.leaf[r].currentLeaderId == r
    ensures i in s'.leaf && (s'.leaf[i].currentLeaderId == r || PromotionPending(s', r, i))
  {
    hide Static, Suspects, Roles, PromotionPending;
    SuccessionLeavesAfter(s, a, s', leader, r, i);
    LeaderAfter(s, a, s', leader, i);
    SuccessionLeavesAfter(s, a, s', leader, r, r);
    if s.leaf[r].currentLeaderId != r {
      NotSuspected(s, r, i);
      NotSuspected(s', r, i);
      PromotionReachesAll(s, r, leader, i);
    } else if s.leaf[i].currentLeaderId != r {
      PendingAfter(s, a, leader, r, i);
    }
  }

  lemma NotSuspected<V(!new)>(s: System<V>, i: int, j: int)
    requires !Suspects(s) && i in s.up && j in s.up && i in s.leaf
    ensures !MarkedDead(s.leaf[i], j)
  {
  }

  lemma StepKeepsSuccession<V(!new)>(s: System<V>, a: Action<V>, s': System<V>, leader: int, r: int)
    requires Static(s, leader) && Enabled(s, a) && s' == Apply(s, a) && Succession(s, leader, r)
    requires !Suspects(s) && !Suspects(s') && MildStep(s, a, leader)
    ensures Succession(s', leader, r)
  {
    hide Static, Suspects, Roles, Told, OnlyFrom;
    StepKeepsStatic(s, a, leader);
    StepKeepsRoles(s, a, s', leader, r);
    StepKeepsTold(s, a, s', leader, r);
    StepKeepsOnlyFrom(s, a, s', leader, r);
  }

  lemma StepKeepsRoles<V(!new)>(s: System<V>, a: Action<V>, s': System<V>, leader: int, r: int)
    requires Static(s, leader) && Enabled(s, a) && s' == Apply(s, a) && Succession(s, leader, r)
    requires !Suspects(s) && !Suspects(s')
    ensures Roles(s', leader, r)
  {
    hide Static, Suspects, Roles, Told, OnlyFrom;
    StepKeepsStatic(s, a, leader);
    forall i | i in s'.leaf
      ensures s'.leaf[i].currentLeaderId == leader || s'.leaf[i].currentLeaderId == r
      ensures i != r ==> s'.leaf[i].role == if i == leader then LocalLeader else PromotionReadyReplica
    {
      SuccessionLeavesAfter(s, a, s', leader, r, i);
    }
    SuccessionLeavesAfter(s, a, s', leader, r, r);
    RolesFrom(s', leader, r);
  }

  lemma RolesFrom<V(!new)>(s: System<V>, leader: int, r: int)
    requires r in s.leaf
    requires forall i :: i in s.leaf ==> s.leaf[i].currentLeaderId == leader || s.leaf[i].currentLeaderId == r
    requires forall i :: i in s.leaf && i != r ==>
               s.leaf[i].role == if i == leader then LocalLeader else PromotionReadyReplica
    requires s.leaf[r].role == if s.leaf[r].currentLeaderId == r then LocalLeader else PromotionReadyReplica
    ensures Roles(s, leader, r)
  {
  }

  lemma StepKeepsTold<V(!new)>(s: System<V>, a: Action<V>, s': System<V>, leader: int, r: int)
    requires Static(s, leader) && Enabled(s, a) && s' == Apply(s, a) && Succession(s, leader, r)
    requires !Suspects(s) && !Suspects(s') && MildStep(s, a, leader)
    ensures Told(s', leader, r)
  {
    hide Static, Suspects, Roles, OnlyFrom, PromotionPending;
    StepKeepsStatic(s, a, leader);
    SuccessionLeavesAfter(s, a, s', leader, r, r);
    forall i | i in s'.up && i in s'.leaf && i != r && s'.leaf[r].currentLeaderId == r
      ensures s'.leaf[i].currentLeaderId == r || PromotionPending(s', r, i)
    {
      PendingOrToldAfter(s, a, s', leader, r, i);
    }
  }

  lemma StepKeepsOnlyFrom<V(!new)>(s: System<V>, a: Action<V>, s': System<V>, leader: int, r: int)
    requires Static(s, leader) && Enabled(s, a) && s' == Apply(s, a) && Succession(s, leader, r)
    requires !Suspects(s) && !Suspects(s')
    ensures OnlyFrom(s', r)
  {
    hide Static, Suspects, Succession;
    forall f, i, k | 0 <= k < |Queue(s'.net, f, i)| && Queue(s'.net, f, i)[k].SelfPromotion?
      ensures f == r
    {
      SuccessionLinksAfter(s, a, s', leader, r, f, i, k);
    }
  }

  /** Runs in which only the initial leader crashes, no promotion message is lost and the detector is accurate. */
  ghost predicate MildRun<V>(states: seq<System<V>>, actions: seq<Action<V>>, leader: int) {
    && IsRun(states, actions)
    && (forall k :: 0 <= k < |actions| ==> MildStep(states[k], actions[k], leader))
    && forall k :: 0 <= k < |states| ==> !Suspects(states[k])
  }

  lemma {:induction false} MildRunKeepsSuccession<V(!new)>(states: seq<System<V>>, actions: seq<Action<V>>, leader: int,
                                                           r: int, n: nat)
    requires MildRun(states, actions, leader) && Initial(states[0], leader) && n < |states|
    requires LowestReplica(states[0], leader, r)
    ensures Succession(states[n], leader, r)
    decreases n
  {
    hide Static, Initial, Suspects, Succession;
    if n == 0 {
      InitialSuccession(states[0], leader, r);
    } else {
      MildRunKeepsSuccession(states, actions, leader, r, n - 1);
      RunKeepsStatic(states, actions, leader, n - 1);
      StepKeepsSuccession(states[n - 1], actions[n - 1], states[n], leader, r);
    }
  }

  /** If only the initial leader crashes: only the lowest replica ever takes over, and once it has and no
      promotion message is in flight every live node names it. */
  lemma FailoverAgreement<V(!new)>(states: seq<System<V>>, actions: seq<Action<V>>, leader: int, r: int, n: nat)
    requires MildRun(states, actions, leader) && Initial(states[0], leader) && n < |states|
    requires LowestReplica(states[0], leader, r)
    ensures forall i :: AcceptsWrites(states[n], i) ==> i == leader || i == r
    ensures AcceptsWrites(states[n], r) && (forall i :: i in states[n].up ==> !PromotionPending(states[n], r, i)) ==>
              forall i :: i in states[n].up ==> i in states[n].leaf && states[n].leaf[i].currentLeaderId == r
  {
    MildRunKeepsSuccession(states, actions, leader, r, n);
    RunKeepsStatic(states, actions, leader, n);
    var s := states[n];
    forall i | i in s.leaf
      ensures s.leaf[i].nodeId == i
    {
      Member(s, leader, i);
    }
  }

  /** The takeover happens: the first scan of the lowest replica that finds the old leader overdue promotes it. */
  lemma OverdueLeaderIsReplaced<V(!new)>(states: seq<System<V>>, actions: seq<Action<V>>, leader: int, r: int, n: nat)
    requires MildRun(states, actions, leader) && Initial(states[0], leader) && n < |actions|
    requires LowestReplica(states[0], leader, r)
    requires actions[n] == ScanTables(r)
    requires r in states[n].leaf && Registered(states[n].leaf[r].localNodes, leader)
             && Overdue(Entry(states[n].leaf[r], leader), states[n].now)
    ensures AcceptsWrites(states[n + 1], r)
  {
    hide Static, Initial, Suspects, MildStep, Scan;
    var s, l := states[n], states[n].leaf[r];
    MildRunKeepsSuccession(states, actions, leader, r, n);
    RunKeepsStatic(states, actions, leader, n);
    Member(s, leader, r);
    if l.currentLeaderId == r {
      ScanEffect(l, s.now);
    } else {
      OverdueScanPromotes(l, leader, r, s.leaf.Keys, s.now);
    }
  }

  /** A scan of the lowest replica that finds the leader it follows overdue makes it a leader. */
  lemma OverdueScanPromotes<V(!new)>(l: LeafState<V>, leader: int, r: int, members: set<int>, now: int)
    requires StaticLeaf(l, r, leader, members) && leader in members && r in members && r != leader
    requires forall j :: j in members && j != leader ==> r <= j
    requires l.role == PromotionReadyReplica && l.currentLeaderId == leader
    requires Overdue(Entry(l, leader), now)
    ensures Scan(l, now).0.currentLeaderId == r == Scan(l, now).0.nodeId
  {
    OverdueLeaderPromotes(l, leader, r, members, now);
    assert ScanTable(l.clusterNodes, r, now) == [];
    assert l.(clusterNodes := []) == l;
    ScanReachesPromotion(l, 0, IndexOfNode(l.localNodes, leader), now);
    ScanFromTable(l, 0, now);
    ScanEffect(l, now);
  }

  lemma OverdueLeaderPromotes<V(!new)>(l: LeafState<V>, leader: int, r: int, members: set<int>, now: int)
    requires StaticLeaf(l, r, leader, members) && leader in members && r in members && r != leader
    requires forall j :: j in members && j != leader ==> r <= j
    requires l.role == PromotionReadyReplica && l.currentLeaderId == leader
    requires Overdue(Entry(l, leader), now)
    ensures PromotesAt(l, 0, IndexOfNode(l.localNodes, leader), now)
  {
    hide LowestAlive, SomeAlive, IndexOfNode, DistinctIds;
    var p := IndexOfNode(l.localNodes, leader);
    var mid := Midway(l.localNodes, 0, p, r, now);
    assert Registered(l.localNodes, leader) && Registered(l.localNodes, r);
    EntriesAreHigher(l, leader, r, members, mid);
    LowestAliveIsLowest(mid, r);
  }

  /** With the old leader's entry dead, every live entry is the lowest replica's or above it. */
  lemma EntriesAreHigher<V(!new)>(l: LeafState<V>, leader: int, r: int, members: set<int>, mid: seq<Descriptor>)
    requires StaticLeaf(l, r, leader, members) && leader in members
    requires forall j :: j in members && j != leader ==> r <= j
    requires SameIds(l.localNodes, mid)
    requires !mid[IndexOfNode(l.localNodes, leader)].isAlive
    ensures forall k :: 0 <= k < |mid| && mid[k].isAlive ==> r <= mid[k].nodeId
    ensures !SomeAlive(mid, leader)
  {
    var p := IndexOfNode(l.localNodes, leader);
    assert Registered(l.localNodes, leader);
    forall k | 0 <= k < |mid| && mid[k].isAlive
      ensures r <= mid[k].nodeId && mid[k].nodeId != leader
    {
      assert k != p && l.localNodes[k].nodeId == mid[k].nodeId;
      assert IndexOfNode(l.localNodes, mid[k].nodeId) <= k;
      assert Registered(l.localNodes, mid[k].nodeId);
    }
  }
}
