/** A follower can keep a key that the successor never got: a run of three nodes in which it does. */
module StaleKeys {
  import opened Lists
  import opened Lru
  import opened LruStore
  import opened Leaf
  import opened LeafFacts
  import opened Cluster
  import opened Leadership
  import opened Failover
  import opened Replication
  import opened Healing
  import opened NodeEffects
  import opened CatchUp
  import opened Successor

  // ----- Three nodes, of which the third leads -----

  const TRIO := [Descriptor(1, 0, 0, true), Descriptor(2, 0, 0, true), Descriptor(3, 0, 0, true)]
  /** What node 1 knows once it has heard of node 2 again, and once it has given node 3 up. */
  const HEARD := [Descriptor(1, 0, 0, true), Descriptor(2, 20000, 0, true), Descriptor(3, 0, 0, true)]
  const GIVEN_UP := [Descriptor(1, 0, 0, true), Descriptor(2, 20000, 0, true), Descriptor(3, 0, 0, false)]

  const EMPTY: Cache<int> := Cache(1, [], map[])
  const STALE: Cache<int> := Cache(1, ["a"], map["a" := 5])

  function Member3(i: int): LeafState<int> {
    LeafState(i, if i == 3 then LocalLeader else PromotionReadyReplica, 3, 3, 0, 3, TRIO, [], EMPTY)
  }

  const SUCCESSOR := Member3(1).(localNodes := GIVEN_UP, currentLeaderId := 1, role := LocalLeader)
  const PUSHED := Member3(2).(store := STALE)
  const FOLLOWER := PUSHED.(currentLeaderId := 1, syncTarget := 1)

  function Trio(): System<int> {
    System(0, map[1 := Member3(1), 2 := Member3(2), 3 := Member3(3)], {1, 2, 3}, map[1 := 0, 2 := 0, 3 := 0], map[])
  }

  predicate ThreeIds(nodes: seq<Descriptor>) {
    |nodes| == 3 && forall i :: 0 <= i < 3 ==> nodes[i].nodeId == i + 1
  }

  lemma TrioEntries(nodes: seq<Descriptor>)
    requires ThreeIds(nodes)
    ensures DistinctIds(nodes) && forall j :: 1 <= j <= 3 ==> IndexOfNode(nodes, j) == j - 1
    ensures forall j :: Registered(nodes, j) <==> j in {1, 2, 3}
  {
    forall j
      ensures Registered(nodes, j) <==> j in {1, 2, 3}
    {
      RegisteredIff(nodes, j);
      if 1 <= j <= 3 {
        assert nodes[j - 1].nodeId == j;
      }
    }
    forall j | 1 <= j <= 3
      ensures IndexOfNode(nodes, j) == j - 1
    {
      assert nodes[j - 1].nodeId == j;
    }
  }

  lemma MemberIsGood(i: int)
    requires i in {1, 2, 3}
    ensures StaticLeaf(Member3(i), i, 3, {1, 2, 3}) && FreshLeaf(Member3(i), 3)
    ensures forall j :: j in {1, 2, 3} ==> Entry(Member3(i), j).isAlive && Entry(Member3(i), j).lastSeen == 0
  {
    TrioEntries(TRIO);
    hide DistinctIds, IndexOfNode;
    forall j | j in {1, 2, 3}
      ensures Registered(TRIO, j) && Entry(Member3(i), j).isAlive && Entry(Member3(i), j).lastSeen == 0
    {
      assert IndexOfNode(TRIO, j) == j - 1;
    }
  }

  lemma TrioIsInitial()
    ensures Initial(Trio(), 3) && LowestReplica(Trio(), 3, 1)
  {
    hide Member3, StaticLeaf, FreshLeaf, Entry, Registered;
    var s := Trio();
    assert s.leaf.Keys == {1, 2, 3};
    MemberIsGood(1);
    MemberIsGood(2);
    MemberIsGood(3);
    forall i | i in s.leaf
      ensures s.leaf[i] == Member3(i)
    {
      assert i in {1, 2, 3};
    }
  }

  // ----- What is where -----

  /** The two replicas, and the links that matter. */
  datatype View = View(
    one: LeafState<int>,
    two: LeafState<int>,
    from3to1: seq<Message<int>>,
    from3to2: seq<Message<int>>,
    from1to2: seq<Message<int>>,
    from2to1: seq<Message<int>>)

  ghost predicate Shows(s: System<int>, v: View) {
    && s.leaf.Keys == {1, 2, 3} && s.up <= {1, 2, 3} && {1, 2} <= s.up
    && s.leaf[1] == v.one && s.leaf[2] == v.two && s.leaf[3].localNodes == TRIO
    && Queue(s.net, 3, 1) == v.from3to1 && Queue(s.net, 3, 2) == v.from3to2
    && Queue(s.net, 1, 2) == v.from1to2 && Queue(s.net, 2, 1) == v.from2to1
  }

  /** Nobody who is up is listed as dead by node 1 or 2; node 3 lists everybody as alive. */
  predicate Trusts(v: View) {
    && ThreeIds(v.one.localNodes) && ThreeIds(v.two.localNodes)
    && v.one.localNodes[0].isAlive && v.one.localNodes[1].isAlive
    && v.two.localNodes == TRIO
  }

  lemma NobodySuspected(s: System<int>, v: View)
    requires Shows(s, v) && Trusts(v) && (3 in s.up ==> v.one.localNodes[2].isAlive)
    ensures !Suspects(s)
  {
    hide IndexOfNode, Registered;
    TrioEntries(v.one.localNodes);
    TrioEntries(TRIO);
    forall i, j | i in s.up && j in s.up && i in s.leaf
      ensures !MarkedDead(s.leaf[i], j)
    {
      assert 1 <= j <= 3;
      assert IndexOfNode(s.leaf[i].localNodes, j) == j - 1;
    }
  }

  /** A step that shows what is to be shown, and suspects nobody. */
  ghost predicate Leads3(s: System<int>, a: Action<int>, s': System<int>, v': View) {
    Enabled(s, a) && s' == Apply(s, a) && Shows(s', v') && MildStep(s, a, 3) && !Suspects(s')
  }

  const PUSH: Message<int> := Push(3, 0, "a", 5)
  const BEAT: Message<int> := HeartBeat(2, 20000, 0)
  const PROMOTION: Message<int> := SelfPromotion(1, 20000)
  const REQUEST: Message<int> := SyncRequest(2, 0)
  const RESPONSE: Message<int> := SyncResponse(1, 2, 0, 20000, [])

  const V0 := View(Member3(1), Member3(2), [], [], [], [])
  const V1 := V0.(from3to1 := [PUSH], from3to2 := [PUSH])
  const V2 := V1.(from3to1 := [])
  const V3 := V2.(two := PUSHED, from3to2 := [])
  const V5 := V3.(from2to1 := [BEAT])
  const V6 := V3.(one := Member3(1).(localNodes := HEARD))
  const V7 := V3.(one := SUCCESSOR, from1to2 := [PROMOTION])
  const V8 := V3.(one := SUCCESSOR, two := FOLLOWER, from2to1 := [REQUEST])
  const V9 := V3.(one := SUCCESSOR, two := FOLLOWER, from1to2 := [RESPONSE])
  const V10 := V3.(one := SUCCESSOR, two := FOLLOWER.(lastSyncTime := 20000))

  lemma NoneListed()
    ensures Enumerates<int>([], map[]) && PayloadMap<int>([]) == map[] && Stamped<int>([], 20000) == []
  {
    assert Keys<int>([]) == [];
  }

  lemma AliveInTrio()
    ensures SomeAlive(TRIO, 1) && SomeAlive(TRIO, 2)
  {
    assert TRIO[0].isAlive && TRIO[0].nodeId == 1 && TRIO[1].isAlive && TRIO[1].nodeId == 2;
  }

  // ----- The steps -----

  /** A link after a step. */
  ghost function LinkThen(s: System<int>, a: Action<int>, f: int, t: int): seq<Message<int>>
    requires Enabled(s, a)
  {
    var q := Queue(s.net, f, t);
    (if a.Deliver? && f == a.sender && t == a.node then q[1..]
     else if a.Drop? && f == a.sender && t == a.node then q[..a.position] + q[a.position + 1..]
     else q) + if IsLocal(a) && f == a.node then Addressed(Local(s, a).1, t) else []
  }

  lemma LinksAfter(s: System<int>, a: Action<int>)
    requires Enabled(s, a)
    ensures Queue(Apply(s, a).net, 3, 1) == LinkThen(s, a, 3, 1) && Queue(Apply(s, a).net, 3, 2) == LinkThen(s, a, 3, 2)
    ensures Queue(Apply(s, a).net, 1, 2) == LinkThen(s, a, 1, 2) && Queue(Apply(s, a).net, 2, 1) == LinkThen(s, a, 2, 1)
  {
    hide Apply, Local;
    QueueAfter(s, a, 3, 1);
    QueueAfter(s, a, 3, 2);
    QueueAfter(s, a, 1, 2);
    QueueAfter(s, a, 2, 1);
  }

  /** A write of node 3 reaches both replicas' links. */
  lemma Writes(s: System<int>) returns (a: Action<int>, s': System<int>)
    requires s == Trio()
    ensures a == Write(3, "a", 5, false) && Leads3(s, a, s', V1) && s'.now == 0 && s'.up == {1, 2, 3}
  {
    a := Write(3, "a", 5, false);
    WriteIsPushed(s, a);
    TrioShows();
    hide Addressed, Dispatch, ToLivePeers, Insert, Suspects, IndexFrom;
    LinksAfter(s, a);
    s' := Apply(s, a);
    assert s'.leaf.Keys == {1, 2, 3};
    NobodySuspected(s', V1);
  }

  lemma WriteIsPushed(s: System<int>, a: Action<int>)
    requires s == Trio() && a == Write(3, "a", 5, false)
    ensures Enabled(s, a) && Addressed(Local(s, a).1, 1) == [PUSH] && Addressed(Local(s, a).1, 2) == [PUSH]
  {
    TrioEntries(TRIO);
    AliveInTrio();
    hide SomeAlive, DistinctIds, Addressed;
    LivePeersGetOneMessage<int>(TRIO, 3, PUSH, 1);
    LivePeersGetOneMessage<int>(TRIO, 3, PUSH, 2);
  }

  /** Node 1's push is lost, node 2's is taken, and node 3 crashes; twenty seconds go by. */
  lemma PushIsLost(s: System<int>) returns (a: Action<int>, s': System<int>)
    requires Shows(s, V1) && s.now == 0 && s.up == {1, 2, 3}
    ensures a == Drop(3, 1, 0) && Leads3(s, a, s', V2) && s'.now == 0 && s'.up == {1, 2, 3}
  {
    a := Drop(3, 1, 0);
    LinksAfter(s, a);
    s' := Apply(s, a);
    NobodySuspected(s', V2);
  }

  lemma PushIsTaken(s: System<int>) returns (a: Action<int>, s': System<int>)
    requires Shows(s, V2) && s.now == 0 && s.up == {1, 2, 3}
    ensures a == Deliver(3, 2, []) && Leads3(s, a, s', V3) && s'.now == 0 && s'.up == {1, 2, 3}
  {
    a := Deliver(3, 2, []);
    NoneListed();
    hide Enumerates, Keys, Suspects;
    LinksAfter(s, a);
    s' := Apply(s, a);
    assert Without<string>([], "a") == [] && ["a"] + [] == ["a"];
    assert s'.leaf[2] == PUSHED;
    NobodySuspected(s', V3);
  }

  lemma LeaderCrashes(s: System<int>) returns (a: Action<int>, s': System<int>)
    requires Shows(s, V3) && s.now == 0 && s.up == {1, 2, 3}
    ensures a == Crash(3) && Leads3(s, a, s', V3) && s'.now == 0 && s'.up == {1, 2}
  {
    a := Crash(3);
    s' := Apply(s, a);
    NobodySuspected(s', V3);
  }

  lemma TimeGoesBy(s: System<int>) returns (a: Action<int>, s': System<int>)
    requires Shows(s, V3) && s.now == 0 && s.up == {1, 2}
    ensures a == Tick(20000) && Leads3(s, a, s', V3) && s'.now == 20000 && s'.up == {1, 2}
  {
    a := Tick(20000);
    s' := Apply(s, a);
    NobodySuspected(s', V3);
  }

  lemma BeatsOfFollower()
    ensures Addressed(HeartBeats(PUSHED, 20000, 0), 1) == [BEAT]
  {
    TrioEntries(TRIO);
    hide Addressed, IndexOfNode;
    PeersGetOneMessage<int>(TRIO, 2, BEAT, 1);
    assert HeartBeats(PUSHED, 20000, 0) == ToPeers(TRIO, 2, BEAT);
  }

  lemma FollowerBeats(s: System<int>) returns (a: Action<int>, s': System<int>)
    requires Shows(s, V3) && s.now == 20000 && s.up == {1, 2}
    ensures a == Action.Beat(2, 0) && Leads3(s, a, s', V5) && s'.now == 20000 && s'.up == {1, 2}
  {
    a := Action.Beat(2, 0);
    BeatsOfFollower();
    hide HeartBeats, Addressed, Suspects;
    LinksAfter(s, a);
    s' := Apply(s, a);
    NobodySuspected(s', V5);
  }

  lemma BeatOfFollower()
    ensures Handle(Member3(1), BEAT, 20000, []) == (V6.one, [])
  {
    KnownSenderIsRefreshed(Member3(1), 2, 20000, 0, 20000, 1);
    HeardSo();
    var r := ReceiveHeartBeat(Member3(1), 2, 20000, 0, 20000);
    assert r.clusterNodes == [] && r.clusterNodes + r.localNodes == r.localNodes;
  }

  lemma BeatIsHeard(s: System<int>) returns (a: Action<int>, s': System<int>)
    requires Shows(s, V5) && s.now == 20000 && s.up == {1, 2}
    ensures a == Deliver(2, 1, []) && Leads3(s, a, s', V6) && s'.now == 20000 && s'.up == {1, 2}
  {
    a := Deliver(2, 1, []);
    NoneListed();
    BeatOfFollower();
    hide Enumerates, Keys, Suspects, Handle;
    assert Local(s, a) == (V6.one, []);
    hide Local;
    LinksAfter(s, a);
    s' := Apply(s, a);
    NobodySuspected(s', V6);
  }

  lemma HeardSo()
    ensures FirstEntry([] + TRIO, 1, 2) && ([] + TRIO)[1 := Descriptor(2, 20000, 0, true)] == HEARD
  {
  }

  /** Node 1 gives node 3 up and promotes itself. */
  lemma TakesOver(s: System<int>) returns (a: Action<int>, s': System<int>)
    requires Shows(s, V6) && s.now == 20000 && s.up == {1, 2}
    ensures a == ScanTables(1) && Leads3(s, a, s', V7) && s'.now == 20000 && s'.up == {1, 2}
  {
    a := ScanTables(1);
    ScanOfSuccessor();
    hide Scan, Suspects;
    LinksAfter(s, a);
    s' := Apply(s, a);
    NobodySuspected(s', V7);
  }

  lemma ScanOfSuccessor()
    ensures var l := V6.one; Scan(l, 20000).0 == SUCCESSOR && Addressed(Scan(l, 20000).1, 2) == [PROMOTION]
  {
    var l := V6.one;
    TrioEntries(HEARD);
    IsNextInLine();
    ScanMarks(l, 20000);
    hide Scan, NextInLine, DistinctIds;
    assert NextInLine(l, 2, 20000);
    ScanPromotesIff(l, 20000);
    assert Scan(l, 20000).0.localNodes == GIVEN_UP;
    PromotionIsTold(l, 20000, 2, 2);
    assert AliveAt(HEARD, 1, 2, 1, 20000) && HEARD[1].nodeId == 2;
  }

  lemma IsNextInLine()
    ensures NextInLine(V6.one, 2, 20000)
  {
    assert HEARD[2].nodeId == 3;
  }

  lemma FollowerAsksSuccessor()
    ensures Handle(PUSHED, PROMOTION, 20000, []) == (FOLLOWER, [Send(1, REQUEST)])
  {
    TrioEntries(TRIO);
    hide IndexOfNode;
  }

  lemma FollowerIsTold(s: System<int>) returns (a: Action<int>, s': System<int>)
    requires Shows(s, V7) && s.now == 20000 && s.up == {1, 2}
    ensures a == Deliver(1, 2, []) && Leads3(s, a, s', V8) && s'.now == 20000 && s'.up == {1, 2}
  {
    a := Deliver(1, 2, []);
    NoneListed();
    FollowerAsksSuccessor();
    OneSend<int>(1, REQUEST, 1);
    hide Enumerates, Keys, Suspects, Handle, Addressed;
    assert Local(s, a) == (FOLLOWER, [Send(1, REQUEST)]);
    hide Local;
    LinksAfter(s, a);
    s' := Apply(s, a);
    NobodySuspected(s', V8);
  }

  lemma AnswerOfSuccessor()
    ensures Handle(SUCCESSOR, REQUEST, 20000, []) == (SUCCESSOR, [Send(2, RESPONSE)])
  {
    TrioEntries(GIVEN_UP);
    NoneListed();
    hide IndexOfNode;
  }

  lemma IsAnAnswer(s: System<int>)
    requires Shows(s, V8)
    ensures Answers(s, Deliver(2, 1, []), 1, 2)
  {
    TrioEntries(GIVEN_UP);
  }

  lemma RequestIsAnswered(s: System<int>) returns (a: Action<int>, s': System<int>)
    requires Shows(s, V8) && s.now == 20000 && s.up == {1, 2}
    ensures a == Deliver(2, 1, []) && Leads3(s, a, s', V9) && s'.now == 20000 && s'.up == {1, 2}
    ensures Answers(s, a, 1, 2)
  {
    a := Deliver(2, 1, []);
    IsAnAnswer(s);
    NoneListed();
    AnswerOfSuccessor();
    OneSend<int>(2, RESPONSE, 2);
    hide Enumerates, Keys, Suspects, Answers, Handle, Addressed;
    assert Local(s, a) == (SUCCESSOR, [Send(2, RESPONSE)]);
    hide Local;
    LinksAfter(s, a);
    s' := Apply(s, a);
    NobodySuspected(s', V9);
  }

  lemma AnswerIsTaken(s: System<int>) returns (a: Action<int>, s': System<int>)
    requires Shows(s, V9) && s.now == 20000 && s.up == {1, 2}
    ensures a == Deliver(1, 2, []) && Leads3(s, a, s', V10) && s'.now == 20000 && s'.up == {1, 2}
  {
    a := Deliver(1, 2, []);
    NoneListed();
    hide Enumerates, Keys, Suspects, PayloadMap;
    assert Local(s, a) == (V10.two, []);
    hide Local;
    LinksAfter(s, a);
    s' := Apply(s, a);
    NobodySuspected(s', V10);
  }

  // ----- The run -----

  /** The run so far, and where it is. */
  ghost predicate RunsTo(states: seq<System<int>>, actions: seq<Action<int>>) {
    MildRun(states, actions, 3) && states[0] == Trio()
  }

  lemma RunGoesOn(states: seq<System<int>>, actions: seq<Action<int>>, a: Action<int>, s': System<int>, v: View)
    requires RunsTo(states, actions) && Leads3(Last(states), a, s', v)
    ensures RunsTo(states + [s'], actions + [a])
  {
    hide Enabled, Apply, Suspects, MildStep, Shows;
    var more, acts := states + [s'], actions + [a];
    assert forall k :: 0 <= k < |states| ==> more[k] == states[k];
    assert forall k :: 0 <= k < |actions| ==> acts[k] == actions[k];
    assert more[|states|] == s' && acts[|actions|] == a && Last(states) == more[|actions|];
  }

  lemma RunStarts()
    ensures RunsTo([Trio()], [])
  {
    TrioEntries(TRIO);
    TrioShows();
    NobodySuspected(Trio(), V0);
  }

  lemma TrioShows()
    ensures Shows(Trio(), V0)
  {
    assert Trio().leaf.Keys == {1, 2, 3};
  }

  /** The first half of the run: the push to node 1 is lost, node 3 crashes. */
  lemma UpToCrash() returns (states: seq<System<int>>, actions: seq<Action<int>>)
    ensures RunsTo(states, actions) && |actions| == 5
    ensures Shows(Last(states), V3) && Last(states).now == 20000 && Last(states).up == {1, 2}
    ensures actions == [Write(3, "a", 5, false), Drop(3, 1, 0), Deliver(3, 2, []), Crash(3), Tick(20000)]
  {
    hide RunsTo, Shows, MildStep, Suspects, Enabled, Apply;
    states, actions := [Trio()], [];
    RunStarts();
    var a, s := Writes(Trio());
    RunGoesOn(states, actions, a, s, V1);
    states, actions := states + [s], actions + [a];
    a, s := PushIsLost(s);
    RunGoesOn(states, actions, a, s, V2);
    states, actions := states + [s], actions + [a];
    a, s := PushIsTaken(s);
    RunGoesOn(states, actions, a, s, V3);
    states, actions := states + [s], actions + [a];
    a, s := LeaderCrashes(s);
    RunGoesOn(states, actions, a, s, V3);
    states, actions := states + [s], actions + [a];
    a, s := TimeGoesBy(s);
    RunGoesOn(states, actions, a, s, V3);
    states, actions := states + [s], actions + [a];
  }

  /** The whole run: node 1 takes over, and node 2 asks it and is answered. */
  lemma UpToAnswer() returns (states: seq<System<int>>, actions: seq<Action<int>>)
    ensures RunsTo(states, actions) && |actions| == 11
    ensures Shows(Last(states), V10) && Last(states).up == {1, 2}
    ensures actions[0] == Write(3, "a", 5, false) && forall k :: 0 < k < 11 ==> !actions[k].Write?
    ensures Shows(states[9], V8) && states[9].up == {1, 2} && Answers(states[9], actions[9], 1, 2)
    ensures actions[10] == Deliver(1, 2, [])
  {
    hide RunsTo, Shows, MildStep, Suspects, Enabled, Apply, Answers;
    states, actions := UpToCrash();
    HasStates(states, actions);
    var a, s := FollowerBeats(Last(states));
    RunGoesOn(states, actions, a, s, V5);
    states, actions := states + [s], actions + [a];
    a, s := BeatIsHeard(s);
    RunGoesOn(states, actions, a, s, V6);
    states, actions := states + [s], actions + [a];
    a, s := TakesOver(s);
    RunGoesOn(states, actions, a, s, V7);
    states, actions := states + [s], actions + [a];
    a, s := FollowerIsTold(s);
    RunGoesOn(states, actions, a, s, V8);
    states, actions := states + [s], actions + [a];
    a, s := RequestIsAnswered(s);
    RunGoesOn(states, actions, a, s, V9);
    states, actions := states + [s], actions + [a];
    a, s := AnswerIsTaken(s);
    RunGoesOn(states, actions, a, s, V10);
    states, actions := states + [s], actions + [a];
  }

  lemma HasStates(states: seq<System<int>>, actions: seq<Action<int>>)
    requires RunsTo(states, actions)
    ensures |states| == |actions| + 1
  {
  }

  lemma {:induction false} WrittenOnce(states: seq<System<int>>, actions: seq<Action<int>>, n: nat)
    requires |states| == |actions| + 1 && 0 < n <= |actions| && states[0] == Trio()
    requires actions[0] == Write(3, "a", 5, false) && forall k :: 0 < k < |actions| ==> !actions[k].Write?
    ensures Written(states, actions, n) == map["a" := 5]
  {
    if n == 1 {
      assert Written(states, actions, 0) == map[];
    } else {
      WrittenOnce(states, actions, n - 1);
    }
  }

  /** The successor never got the key, and the follower keeps it: answered, with nothing lost since and nothing in
      flight any more, the two hold different maps. */
  lemma StaleKeyStays() returns (states: seq<System<int>>, actions: seq<Action<int>>)
    ensures RoomyMildRun(states, actions, 3, 1, 2) && |actions| == 11 && AcceptsWrites(states[9], 1)
    ensures Drained(states[9], 3, 1) && Drained(states[9], 3, 2) && Answers(states[9], actions[9], 1, 2)
    ensures !Loses(actions[10], 1, 2) && Queue(states[11].net, 1, 2) == [] && Queue(states[11].net, 2, 1) == []
    ensures states[11].leaf.Keys == {1, 2, 3}
    ensures states[11].leaf[1].store.kv == map[] && states[11].leaf[2].store.kv == map["a" := 5]
  {
    hide Answers, Initial, Suspects, MildStep, Enabled, Apply;
    states, actions := UpToAnswer();
    TrioIsInitial();
    TrioShows();
    WrittenOnce(states, actions, 11);
    assert |map["a" := 5]| == 1;
  }
}
