/** Which writes survive a takeover: of the old leader's, those whose pushes are not still in flight; of the new
    leader's, those that no message still in flight from the old one contradicts. */
module Takeover {
  import opened Lists
  import opened Lru
  import opened LruStore
  import opened Leaf
  import opened LeafFacts
  import opened Cluster
  import opened Leadership
  import opened Failover
  import opened Replication
  import opened Convergence
  import opened Healing
  import opened TimingBound

  // ----- What the old leader accepted -----

  /** The value that the last of these messages with a value for k brings. */
  function LastOffer<V>(d: seq<Message<V>>, k: string): Option<V> {
    if d == [] then None else if Offer(Last(d), k).Some? then Offer(Last(d), k) else LastOffer(Init(d), k)
  }

  lemma {:induction false} ReplayAt<V>(m: map<string, V>, d: seq<Message<V>>, k: string)
    ensures var r := Replay(m, d);
            (k in r <==> k in m || LastOffer(d, k).Some?)
            && (k in r ==> r[k] == if LastOffer(d, k).Some? then LastOffer(d, k).value else m[k])
  {
    if d == [] {
    } else {
      ReplayAt(m, Init(d), k);
    }
  }

  lemma NothingPending<V(!new)>(s: System<V>, leader: int, f: int, room: set<string>)
    requires Initial(s, leader) && Fits(s, leader, f, room)
    ensures f in s.leaf && Pending(s, leader, f) == map[]
  {
    FreshStores(s, leader);
  }

  /** The scan with which a node takes over changes neither its store nor what is in flight to it. */
  lemma ScanKeepsData<V(!new)>(s: System<V>, leader: int, r: int)
    requires Static(s, leader) && r in s.up && r != leader
    ensures var s' := Apply(s, ScanTables(r));
            && r in s.leaf && r in s'.leaf && s'.leaf[r].store == s.leaf[r].store
            && Queue(s'.net, leader, r) == Queue(s.net, leader, r)
  {
    hide Static;
    LeaderIsMember(s, leader);
    StoreAfter(s, ScanTables(r), leader, r);
    QueueAfter(s, ScanTables(r), leader, r);
  }

  /** Replica r takes over in the last state of a run under the old leader, in which no push to it was lost or
      skipped. What it holds and what is in flight to it is together everything the old leader accepted; so it
      holds the latest value of a key exactly if no later one is still in flight. */
  lemma OldWritesSurviveIff<V(!new)>(states: seq<System<V>>, actions: seq<Action<V>>, leader: int, r: int, k: string)
    requires OneLeaderRun(states, actions, leader) && r in states[0].leaf && r != leader
    requires |Written(states, actions, |actions|)| <= states[0].leaf[leader].store.capacity
    requires |Written(states, actions, |actions|)| <= states[0].leaf[r].store.capacity
    requires forall i :: 0 <= i < |actions| ==> Lossless(states[i], actions[i], leader, r)
    requires Enabled(Last(states), ScanTables(r)) && k in Written(states, actions, |actions|)
    ensures var s', w := Apply(Last(states), ScanTables(r)), Written(states, actions, |actions|);
            && r in s'.leaf && Pending(s', leader, r) == w
            && var coming := LastOffer(Data(Queue(s'.net, leader, r)), k);
               Holds(s', r, k) && s'.leaf[r].store.kv[k] == w[k] <==>
               coming.None? || coming == Lookup(s'.leaf[r].store, k)
  {
    var n, room := |actions|, Written(states, actions, |actions|).Keys;
    Roomy(states[0], leader, r, room, Written(states, actions, n));
    hide Orderly, Initial, OneLeader, Fits, Data, Apply, Lossless;
    RunIsOrderly(states, actions, leader, n);
    NothingPending(states[0], leader, r, room);
    PendingStaysLatest(states, actions, leader, r, room, 0, n);
    OrderlyIsStatic(states[n], leader);
    ScanKeepsData(states[n], leader, r);
    ReplayAt(states[n].leaf[r].store.kv, Data(Queue(states[n].net, leader, r)), k);
  }

  lemma OrderlyIsStatic<V(!new)>(s: System<V>, leader: int)
    requires Orderly(s, leader)
    ensures Static(s, leader)
  {
  }

  lemma Roomy<V>(s: System<V>, leader: int, f: int, room: set<string>, w: map<string, V>)
    requires leader in s.leaf && f in s.leaf && room == w.Keys
    requires |w| <= s.leaf[leader].store.capacity && |w| <= s.leaf[f].store.capacity
    ensures Fits(s, leader, f, room)
  {
  }

  // ----- Who feeds the new leader -----

  /** Only the two leaders are asked, and only they send data; nobody sends it to itself. */
  predicate FromLeaders<V>(m: Message<V>, g: int, t: int, leader: int, r: int) {
    match m
    case SyncRequest(follower, _) => follower == g && g != t && (t == leader || t == r)
    case Push(_, _, _, _) => (g == leader || g == r) && g != t
    case SyncResponse(_, _, _, _, _) => (g == leader || g == r) && g != t
    case _ => true
  }

  ghost predicate DataFromLeaders<V(!new)>(s: System<V>, leader: int, r: int) {
    forall g, t, m :: m in Queue(s.net, g, t) ==> FromLeaders(m, g, t, leader, r)
  }

  lemma FollowsOldOrNew<V(!new)>(s: System<V>, leader: int, r: int, i: int)
    requires Static(s, leader) && Succession(s, leader, r) && i in s.leaf
    ensures s.leaf[i].nodeId == i && s.leaf[i].clusterNodes == []
    ensures s.leaf[i].currentLeaderId == leader || s.leaf[i].currentLeaderId == r
  {
    Member(s, leader, i);
  }

  lemma HeadFromLeaders<V(!new)>(s: System<V>, leader: int, r: int, g: int, t: int)
    requires Static(s, leader) && Succession(s, leader, r) && DataFromLeaders(s, leader, r) && Queue(s.net, g, t) != []
    ensures var m := Queue(s.net, g, t)[0];
            && FromLeaders(m, g, t, leader, r)
            && (m.SelfPromotion? ==> g == r && m.leaderId == r && t != r)
  {
    var m := Queue(s.net, g, t)[0];
    assert m in Queue(s.net, g, t);
    assert WellAddressed(m, g, t);
  }

  lemma RepliesFromLeaders<V(!new)>(l: LeafState<V>, m: Message<V>, now: int, order: seq<(string, V)>, g: int,
                                    leader: int, r: int)
    requires FromLeaders(m, g, l.nodeId, leader, r)
    requires m.SelfPromotion? ==> m.leaderId == r && l.nodeId != r && Registered(l.localNodes, r)
    ensures forall x :: x in Handle(l, m, now, order).1 ==> FromLeaders(x.message, l.nodeId, x.destination, leader, r)
  {
    hide Insert, Load, IndexFrom, Stamped, ReceiveHeartBeat;
  }

  lemma SendsFromLeaders<V(!new)>(s: System<V>, a: Action<V>, leader: int, r: int)
    requires Static(s, leader) && Enabled(s, a) && IsLocal(a)
    requires Succession(s, leader, r) && DataFromLeaders(s, leader, r)
    ensures forall m :: m in Local(s, a).1 ==> FromLeaders(m.message, a.node, m.destination, leader, r)
  {
    hide Static, Succession, DataFromLeaders, Scan, ToLivePeers, Handle, IndexFrom;
    var l := s.leaf[a.node];
    FollowsOldOrNew(s, leader, r, a.node);
    match a
    case Beat(_, clusterType) => ToPeersReaches<V>(l.localNodes, l.nodeId, HeartBeat(l.nodeId, s.now, clusterType));
    case ScanTables(_) => SentByScan(l, s.now);
    case Write(_, key, value, _) => ToLivePeersReaches<V>(l.localNodes, l.nodeId, Push(l.nodeId, s.now, key, value));
    case Deliver(f, t, order) =>
      HeadFromLeaders(s, leader, r, f, t);
      SuccessorIsListed(s, leader, r, t);
      RepliesFromLeaders(l, Queue(s.net, f, t)[0], s.now, order, f, leader, r);
    case Read(_, _) =>
    case Start(_) =>
  }

  lemma SuccessorIsListed<V(!new)>(s: System<V>, leader: int, r: int, i: int)
    requires Static(s, leader) && Succession(s, leader, r) && i in s.leaf
    ensures Registered(s.leaf[i].localNodes, r)
  {
    Member(s, leader, i);
  }

  lemma StepKeepsDataFromLeaders<V(!new)>(s: System<V>, a: Action<V>, leader: int, r: int)
    requires Static(s, leader) && Enabled(s, a) && Succession(s, leader, r) && DataFromLeaders(s, leader, r)
    ensures DataFromLeaders(Apply(s, a), leader, r)
  {
    if IsLocal(a) {
      SendsFromLeaders(s, a, leader, r);
    }
    hide Static, Succession;
    forall g, t, m | m in Queue(Apply(s, a).net, g, t)
      ensures FromLeaders(m, g, t, leader, r)
    {
      QueueAfter(s, a, g, t);
      if IsLocal(a) && g == a.node {
        AddressedIsSent(Local(s, a).1, t);
      }
      assert m in Queue(s.net, g, t) || (IsLocal(a) && g == a.node && m in Addressed(Local(s, a).1, t));
    }
  }

  // ----- After the takeover -----

  /** Replica r leads, and the run so far has been a mild one. */
  ghost predicate TakenOver<V(!new)>(s: System<V>, leader: int, r: int) {
    && Static(s, leader) && Succession(s, leader, r) && DataFromLeaders(s, leader, r) && ValidStores(s) && !Suspects(s)
    && s.leaf[r].currentLeaderId == r
  }

  /** A step of a mild run that writes nothing to k. */
  ghost predicate Quiet<V>(s: System<V>, a: Action<V>, leader: int, k: string) {
    && Enabled(s, a) && MildStep(s, a, leader) && !Suspects(Apply(s, a))
    && !(AcceptedWrite(s, a) && a.key == k)
  }

  ghost predicate QuietlyLeads<V>(s: System<V>, actions: seq<Action<V>>, s': System<V>, leader: int, k: string)
    decreases |actions|
  {
    if actions == [] then s' == s
    else Quiet(s, actions[0], leader, k) && QuietlyLeads(Apply(s, actions[0]), actions[1..], s', leader, k)
  }

  /** Quiet steps lead to r having another value than v for k. */
  ghost predicate CanLose<V(!new)>(s: System<V>, leader: int, r: int, k: string, v: V) {
    exists actions, s' :: QuietlyLeads(s, actions, s', leader, k) && Holds(s', r, k) && s'.leaf[r].store.kv[k] != v
  }

  /** A message of the old leader with another value for k is still in flight. */
  ghost predicate Contradicted<V>(s: System<V>, leader: int, r: int, k: string, v: V) {
    exists m :: m in Queue(s.net, leader, r) && Brings(m, k, v)
  }

  ghost predicate Brings<V>(m: Message<V>, k: string, v: V) {
    Offer(m, k).Some? && Offer(m, k).value != v
  }

  lemma StepKeepsTakenOver<V(!new)>(s: System<V>, a: Action<V>, leader: int, r: int)
    requires TakenOver(s, leader, r) && Enabled(s, a) && MildStep(s, a, leader) && !Suspects(Apply(s, a))
    ensures TakenOver(Apply(s, a), leader, r)
  {
    var s' := Apply(s, a);
    StepKeepsStatic(s, a, leader);
    StepKeepsSuccession(s, a, s', leader, r);
    StepKeepsDataFromLeaders(s, a, leader, r);
    StepKeepsValidStores(s, a, leader);
    LeaderAfter(s, a, s', leader, r);
  }

  lemma StepKeepsValidStores<V(!new)>(s: System<V>, a: Action<V>, leader: int)
    requires Static(s, leader) && Enabled(s, a) && ValidStores(s)
    ensures ValidStores(Apply(s, a))
  {
    StepKeepsStatic(s, a, leader);
    hide Static, Lru.Valid;
    forall i | i in Apply(s, a).leaf
      ensures Lru.Valid(Apply(s, a).leaf[i].store)
    {
      StoreAfter(s, a, leader, i);
      StoreThenValid(s, a, i);
    }
  }

  /** r holds v for k, if anything, and nothing in flight to it says otherwise. */
  ghost predicate Kept<V>(s: System<V>, leader: int, r: int, k: string, v: V) {
    !Contradicted(s, leader, r, k, v) && (Holds(s, r, k) ==> s.leaf[r].store.kv[k] == v)
  }

  lemma QuietStepKeeps<V(!new)>(s: System<V>, a: Action<V>, leader: int, r: int, k: string, v: V)
    requires TakenOver(s, leader, r) && Enabled(s, a) && Quiet(s, a, leader, k) && Kept(s, leader, r, k, v)
    ensures Kept(Apply(s, a), leader, r, k, v)
  {
    hide TakenOver, Quiet, Brings, Apply;
    NothingNewFromOld(s, a, leader, r);
    StoreOfNew(s, a, leader, r, k, v);
  }

  lemma OldIsDown<V(!new)>(s: System<V>, leader: int, r: int)
    requires TakenOver(s, leader, r)
    ensures leader !in s.up
  {
  }

  /** The old leader is down: its link to r only gets shorter. */
  lemma NothingNewFromOld<V(!new)>(s: System<V>, a: Action<V>, leader: int, r: int)
    requires TakenOver(s, leader, r) && Enabled(s, a)
    ensures forall m :: m in Queue(Apply(s, a).net, leader, r) ==> m in Queue(s.net, leader, r)
  {
    OldIsDown(s, leader, r);
    hide TakenOver, Apply, Local;
    QueueAfter(s, a, leader, r);
  }

  lemma StoreOfNew<V(!new)>(s: System<V>, a: Action<V>, leader: int, r: int, k: string, v: V)
    requires TakenOver(s, leader, r) && Quiet(s, a, leader, k) && Kept(s, leader, r, k, v)
    ensures Holds(Apply(s, a), r, k) ==> Apply(s, a).leaf[r].store.kv[k] == v
  {
    StoreAfter(s, a, leader, r);
    var c := s.leaf[r].store;
    if AcceptedWrite(s, a) && a.node == r {
      InsertEffect(c, a.key, a.value);
    } else if a.Deliver? && a.node == r {
      var q := Queue(s.net, a.sender, r);
      assert q[0] in q && FromLeaders(q[0], a.sender, r, leader, r);
      HeadOrder(s, a);
      ReceivedEffect(c, q[0], a.order);
      assert a.sender == leader ==> !Brings(q[0], k, v);
    }
  }

  lemma {:induction false} QuietlyKept<V(!new)>(s: System<V>, actions: seq<Action<V>>, s': System<V>, leader: int,
                                                r: int, k: string, v: V)
    requires TakenOver(s, leader, r) && QuietlyLeads(s, actions, s', leader, k) && Kept(s, leader, r, k, v)
    ensures Kept(s', leader, r, k, v)
    decreases |actions|
  {
    hide TakenOver, Kept, MildStep, Suspects, Apply, Enabled, AcceptedWrite;
    if actions == [] {
    } else {
      StepKeepsTakenOver(s, actions[0], leader, r);
      QuietStepKeeps(s, actions[0], leader, r, k, v);
      QuietlyKept(Apply(s, actions[0]), actions[1..], s', leader, r, k, v);
    }
  }

  // ----- How a write is lost -----

  lemma LeafStaysUnsuspecting<V(!new)>(s: System<V>, s': System<V>, r: int)
    requires !Suspects(s) && s'.up == s.up && s'.leaf.Keys == s.leaf.Keys && r in s.leaf
    requires s'.leaf[r].localNodes == s.leaf[r].localNodes
             && (forall i :: i in s.leaf && i != r ==> s'.leaf[i] == s.leaf[i])
    ensures !Suspects(s')
  {
    forall i, j | i in s'.up && j in s'.up && i in s'.leaf
      ensures !MarkedDead(s'.leaf[i], j)
    {
      assert !MarkedDead(s.leaf[i], j);
    }
  }

  lemma OneQuietStep<V(!new)>(s: System<V>, a: Action<V>, actions: seq<Action<V>>, s': System<V>, leader: int,
                              k: string)
    requires Quiet(s, a, leader, k) && QuietlyLeads(Apply(s, a), actions, s', leader, k)
    ensures QuietlyLeads(s, [a] + actions, s', leader, k)
  {
    hide Quiet, Apply;
    assert ([a] + actions)[0] == a && ([a] + actions)[1..] == actions;
  }

  /** The messages in front are lost, and the one that contradicts is delivered. */
  lemma {:induction false} ContradictionArrives<V(!new)>(s: System<V>, leader: int, r: int, k: string, v: V, i: nat)
    requires TakenOver(s, leader, r) && i < |Queue(s.net, leader, r)| && Brings(Queue(s.net, leader, r)[i], k, v)
    ensures CanLose(s, leader, r, k, v)
    decreases i
  {
    hide TakenOver, Brings;
    if i == 0 {
      var a := HeadContradicts(s, leader, r, k, v);
      assert QuietlyLeads(Apply(s, a), [], Apply(s, a), leader, k);
      OneQuietStep(s, a, [], Apply(s, a), leader, k);
    } else {
      var a: Action<V> := Drop(leader, r, 0);
      FrontIsDropped(s, leader, r, k);
      StepKeepsTakenOver(s, a, leader, r);
      ContradictionArrives(Apply(s, a), leader, r, k, v, i - 1);
      var actions, s' :| QuietlyLeads(Apply(s, a), actions, s', leader, k) && Holds(s', r, k)
        && s'.leaf[r].store.kv[k] != v;
      OneQuietStep(s, a, actions, s', leader, k);
    }
  }

  lemma FrontIsDropped<V(!new)>(s: System<V>, leader: int, r: int, k: string)
    requires TakenOver(s, leader, r) && Queue(s.net, leader, r) != []
    ensures Quiet(s, Drop(leader, r, 0), leader, k)
    ensures Queue(Apply(s, Drop(leader, r, 0)).net, leader, r) == Queue(s.net, leader, r)[1..]
  {
    var q := Queue(s.net, leader, r);
    assert q[..0] + q[1..] == q[1..];
    LeafStaysUnsuspecting(s, Apply(s, Drop(leader, r, 0)), r);
  }

  lemma HeadContradicts<V(!new)>(s: System<V>, leader: int, r: int, k: string, v: V) returns (a: Action<V>)
    requires TakenOver(s, leader, r) && Queue(s.net, leader, r) != [] && Brings(Queue(s.net, leader, r)[0], k, v)
    ensures Quiet(s, a, leader, k)
    ensures Holds(Apply(s, a), r, k) && Apply(s, a).leaf[r].store.kv[k] != v
  {
    hide PayloadMap, Insert, Enumerates, DataFromLeaders, StaticLinks, StaticLeaves, ValidStores, Suspects;
    var m := Queue(s.net, leader, r)[0];
    var order: seq<(string, V)> := [];
    if m.SyncResponse? {
      order := EnumeratedLast(PayloadMap(m.payload), k);
    } else {
      NoneEnumerated<V>();
    }
    a := Deliver(leader, r, order);
    TakesOffer(s.leaf[r].store, m, order, k);
    LeafStaysUnsuspecting(s, Apply(s, a), r);
  }

  lemma NoneEnumerated<V>()
    ensures Enumerates<V>([], map[])
  {
    assert Keys<V>([]) == [];
  }

  lemma TakesOffer<V>(c: Cache<V>, m: Message<V>, order: seq<(string, V)>, k: string)
    requires Offer(m, k).Some?
    requires m.SyncResponse? ==> order != [] && Last(order) == (k, PayloadMap(m.payload)[k])
    ensures k in Received(c, m, order).kv && Received(c, m, order).kv[k] == Offer(m, k).value
  {
  }

  /** Once r has taken over, a value that it accepts can be lost to an older one exactly if a message of the old
      leader with another value for its key is still in flight. */
  lemma NewWriteIsLostIff<V(!new)>(s: System<V>, leader: int, r: int, k: string, v: V)
    requires TakenOver(s, leader, r) && AcceptedWrite(s, Write(r, k, v, false))
    ensures var w: Action<V> := Write(r, k, v, false);
            Enabled(s, w) && (CanLose(Apply(s, w), leader, r, k, v) <==> Contradicted(s, leader, r, k, v))
  {
    hide TakenOver, CanLose, Brings, Insert, MildStep, Suspects;
    var w: Action<V> := Write(r, k, v, false);
    WriteIsTaken(s, leader, r, k, v);
    StepKeepsTakenOver(s, w, leader, r);
    var s' := Apply(s, w);
    if Contradicted(s, leader, r, k, v) {
      ContradictedAt(s', leader, r, k, v);
    } else {
      NeverLost(s', leader, r, k, v);
    }
  }

  lemma WriteIsTaken<V(!new)>(s: System<V>, leader: int, r: int, k: string, v: V)
    requires TakenOver(s, leader, r) && AcceptedWrite(s, Write(r, k, v, false))
    ensures var w: Action<V> := Write(r, k, v, false);
            && Enabled(s, w) && MildStep(s, w, leader) && !Suspects(Apply(s, w))
            && Holds(Apply(s, w), r, k) && Apply(s, w).leaf[r].store.kv[k] == v
            && Queue(Apply(s, w).net, leader, r) == Queue(s.net, leader, r)
  {
    var w: Action<V> := Write(r, k, v, false);
    hide Suspects, StaticLinks, DataFromLeaders, StaticLeaves;
    QueueAfter(s, w, leader, r);
    LeafStaysUnsuspecting(s, Apply(s, w), r);
  }

  lemma ContradictedAt<V(!new)>(s: System<V>, leader: int, r: int, k: string, v: V)
    requires TakenOver(s, leader, r) && Contradicted(s, leader, r, k, v)
    ensures CanLose(s, leader, r, k, v)
  {
    hide TakenOver, Brings, CanLose;
    var q := Queue(s.net, leader, r);
    var m :| m in q && Brings(m, k, v);
    var i :| 0 <= i < |q| && q[i] == m;
    ContradictionArrives(s, leader, r, k, v, i);
  }

  lemma NeverLost<V(!new)>(s: System<V>, leader: int, r: int, k: string, v: V)
    requires TakenOver(s, leader, r) && Kept(s, leader, r, k, v)
    ensures !CanLose(s, leader, r, k, v)
  {
    hide TakenOver, QuietlyLeads, Contradicted;
    forall actions, s' | QuietlyLeads(s, actions, s', leader, k)
      ensures !(Holds(s', r, k) && s'.leaf[r].store.kv[k] != v)
    {
      QuietlyKept(s, actions, s', leader, r, k, v);
    }
  }

  // ----- Runs with a takeover -----

  lemma {:induction false} MildRunDataFromLeaders<V(!new)>(states: seq<System<V>>, actions: seq<Action<V>>, leader: int,
                                                           r: int, n: nat)
    requires MildRun(states, actions, leader) && Initial(states[0], leader) && n < |states|
    requires LowestReplica(states[0], leader, r)
    ensures DataFromLeaders(states[n], leader, r) && ValidStores(states[n])
    decreases n
  {
    hide Static, Initial, Suspects, MildStep, Succession, DataFromLeaders, ValidStores, Enabled, Apply;
    if n == 0 {
      NothingFed(states[0], leader, r);
    } else {
      MildRunDataFromLeaders(states, actions, leader, r, n - 1);
      MildRunKeepsSuccession(states, actions, leader, r, n - 1);
      RunKeepsStatic(states, actions, leader, n - 1);
      StepKeepsDataFromLeaders(states[n - 1], actions[n - 1], leader, r);
      StepKeepsValidStores(states[n - 1], actions[n - 1], leader);
    }
  }

  lemma NothingFed<V(!new)>(s: System<V>, leader: int, r: int)
    requires Initial(s, leader)
    ensures DataFromLeaders(s, leader, r) && ValidStores(s)
  {
    FreshStores(s, leader);
  }

  /** In every state of a run in which only the initial leader crashes: a write accepted by the replica that has
      taken over can be lost to an older one exactly if a message of the old leader contradicts it. */
  lemma NewWritesSurviveIff<V(!new)>(states: seq<System<V>>, actions: seq<Action<V>>, leader: int, r: int, n: nat,
                                     k: string, v: V)
    requires MildRun(states, actions, leader) && Initial(states[0], leader) && n < |states|
    requires LowestReplica(states[0], leader, r) && AcceptedWrite(states[n], Write(r, k, v, false))
    ensures var s, w := states[n], Write(r, k, v, false);
            Enabled(s, w) && (CanLose(Apply(s, w), leader, r, k, v) <==> Contradicted(s, leader, r, k, v))
  {
    hide Initial, MildStep, Suspects, CanLose, Contradicted, Static, Succession, DataFromLeaders, ValidStores;
    MildRunKeepsSuccession(states, actions, leader, r, n);
    MildRunDataFromLeaders(states, actions, leader, r, n);
    RunKeepsStatic(states, actions, leader, n);
    FollowsOldOrNew(states[n], leader, r, r);
    NewWriteIsLostIff(states[n], leader, r, k, v);
  }

  // ----- That it can happen -----

  /** Node 2 has accepted a value for "a" whose push has not reached node 1. */
  ghost predicate PushInFlight(s: System<int>) {
    && s.leaf.Keys == {1, 2} && s.leaf[1] == Node(1) && s.leaf[2].localNodes == TABLE
    && s.lastSent == Pair().lastSent && Push(2, 0, "a", 5) in Queue(s.net, 2, 1)
  }

  lemma NoneSuspected(s: System<int>)
    requires s.leaf.Keys == {1, 2} && s.up <= {1, 2} && s.leaf[1].localNodes == TABLE && s.leaf[2].localNodes == TABLE
    ensures !Suspects(s)
  {
    TableEntries();
    assert TABLE[0].isAlive && TABLE[1].isAlive;
  }

  lemma PairWrites() returns (s: System<int>)
    ensures var w: Action<int> := Write(2, "a", 5, false);
            Enabled(Pair(), w) && s == Apply(Pair(), w) && s.up == {1, 2} && s.now == 0 && PushInFlight(s)
  {
    var w: Action<int> := Write(2, "a", 5, false);
    TableEntries();
    assert SomeAlive(TABLE, 1) by {
      assert TABLE[0].isAlive && TABLE[0].nodeId == 1;
    }
    hide Insert, ToLivePeers, Addressed, Dispatch, SomeAlive, IndexFrom, DistinctIds, TABLE;
    s := Apply(Pair(), w);
    QueueAfter(Pair(), w, 2, 1);
    LivePeersGetOneMessage<int>(TABLE, 2, Push(2, 0, "a", 5), 1);
    assert s.leaf.Keys == {1, 2};
  }

  lemma PairTakesOver(s: System<int>) returns (s': System<int>)
    requires PushInFlight(s) && s.up == {1} && s.now == 20000
    ensures Enabled(s, ScanTables(1)) && s' == Apply(s, ScanTables(1)) && !Suspects(s')
    ensures AcceptedWrite(s', Write(1, "a", 6, false)) && Contradicted(s', 2, 1, "a", 6)
  {
    TableEntries();
    NodeIsGood(1);
    s' := Apply(s, ScanTables(1));
    OverdueScanPromotes(Node(1), 2, 1, {1, 2}, 20000);
    ScanEntries(Node(1), 20000, 1);
    QueueAfter(s, ScanTables(1), 2, 1);
    assert Push(2, 0, "a", 5) in Queue(s'.net, 2, 1) && Brings(Push(2, 0, "a", 5), "a", 6);
  }

  /** The old leader crashes with a push in flight: the value that the new leader accepts next can be lost. */
  lemma NewWriteCanBeLost() returns (states: seq<System<int>>, actions: seq<Action<int>>)
    ensures MildRun(states, actions, 2) && Initial(states[0], 2) && LowestReplica(states[0], 2, 1)
    ensures AcceptedWrite(Last(states), Write(1, "a", 6, false)) && Contradicted(Last(states), 2, 1, "a", 6)
  {
    hide Initial, Suspects, Apply, Enabled, PushInFlight, AcceptedWrite, Contradicted, Node, TABLE;
    PairIsMild();
    var s1 := PairWrites();
    var s2, s3 := PairCrashes(s1);
    var s4 := PairTakesOver(s3);
    actions := [Write(2, "a", 5, false), Crash(2), Tick(20000), ScanTables(1)];
    states := [Pair(), s1, s2, s3, s4];
    FourSteps(states, actions);
    assert forall k :: 0 <= k < |states| ==>
             states[k] == Pair() || states[k] == s1 || states[k] == s2 || states[k] == s3 || states[k] == s4;
  }

  lemma PairIsMild()
    ensures Initial(Pair(), 2) && LowestReplica(Pair(), 2, 1) && !Suspects(Pair())
  {
    PairIsInitial();
    NoneSuspected(Pair());
  }

  lemma PairCrashes(s: System<int>) returns (s1: System<int>, s2: System<int>)
    requires PushInFlight(s) && s.up == {1, 2} && s.now == 0
    ensures Enabled(s, Crash(2)) && s1 == Apply(s, Crash(2)) && !Suspects(s) && !Suspects(s1)
    ensures Enabled(s1, Tick(20000)) && s2 == Apply(s1, Tick(20000)) && !Suspects(s2)
    ensures PushInFlight(s2) && s2.up == {1} && s2.now == 20000
  {
    s1 := Apply(s, Crash(2));
    s2 := Apply(s1, Tick(20000));
    NoneSuspected(s);
    NoneSuspected(s1);
    NoneSuspected(s2);
  }

  lemma FourSteps(states: seq<System<int>>, actions: seq<Action<int>>)
    requires |states| == 5 && |actions| == 4
    requires Enabled(states[0], actions[0]) && states[1] == Apply(states[0], actions[0])
    requires Enabled(states[1], actions[1]) && states[2] == Apply(states[1], actions[1])
    requires Enabled(states[2], actions[2]) && states[3] == Apply(states[2], actions[2])
    requires Enabled(states[3], actions[3]) && states[4] == Apply(states[3], actions[3])
    ensures IsRun(states, actions)
  {
    hide Enabled, Apply;
  }
}
