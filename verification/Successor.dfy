/** What a follower holds once it has caught up with the node that has taken over. */
module Successor {
  import opened Lists
  import opened Leaf
  import opened LeafFacts
  import opened Cluster
  import opened Leadership
  import opened Failover
  import opened Replication
  import opened Convergence
  import opened Healing
  import opened Takeover
  import opened TimedFailover
  import opened CatchUp

  // ----- After the old leader's last message -----

  /** No data is in flight on a link. */
  ghost predicate Drained<V>(s: System<V>, g: int, t: int) {
    forall m :: m in Queue(s.net, g, t) ==> !m.Push? && !m.SyncResponse?
  }

  /** Replica r leads, and neither r nor f still gets data from the old leader. */
  ghost predicate Settled<V(!new)>(s: System<V>, leader: int, r: int, f: int) {
    && TakenOver(s, leader, r) && Drained(s, leader, r) && Drained(s, leader, f)
    && f in s.leaf && f != leader && f != r
  }

  lemma SettledFeeds<V(!new)>(s: System<V>, leader: int, r: int, f: int)
    requires Settled(s, leader, r, f)
    ensures Feeds(s, r, f) && f in s.up && leader !in s.up
  {
    forall i | AcceptsWrites(s, i)
      ensures i == r
    {
      FollowsOldOrNew(s, leader, r, i);
    }
    forall g, m | m in Queue(s.net, g, r)
      ensures !m.Push? && !m.SyncResponse?
    {
      assert FromLeaders(m, g, r, leader, r);
    }
    forall g, t, m | m in Queue(s.net, g, t)
      ensures FedMessage(m, g, t, r, f)
    {
      assert FromLeaders(m, g, t, leader, r);
    }
  }

  lemma DrainedStays<V(!new)>(s: System<V>, a: Action<V>, leader: int, t: int)
    requires Enabled(s, a) && leader !in s.up && Drained(s, leader, t)
    ensures Drained(Apply(s, a), leader, t)
  {
    hide Apply, Local;
    QueueAfter(s, a, leader, t);
  }

  lemma StepKeepsSettled<V(!new)>(s: System<V>, a: Action<V>, leader: int, r: int, f: int)
    requires Settled(s, leader, r, f) && Enabled(s, a) && MildStep(s, a, leader) && !Suspects(Apply(s, a))
    ensures Settled(Apply(s, a), leader, r, f)
  {
    SettledFeeds(s, leader, r, f);
    hide Drained, MildStep, Suspects, Feeds;
    StepKeepsTakenOver(s, a, leader, r);
    DrainedStays(s, a, leader, r);
    DrainedStays(s, a, leader, f);
    KeysStay(s, a, leader);
  }

  lemma MildStepAt<V(!new)>(states: seq<System<V>>, actions: seq<Action<V>>, leader: int, n: nat)
    requires MildRun(states, actions, leader) && n < |actions|
    ensures Enabled(states[n], actions[n]) && states[n + 1] == Apply(states[n], actions[n])
    ensures MildStep(states[n], actions[n], leader) && !Suspects(Apply(states[n], actions[n]))
  {
    hide MildStep, Suspects, Enabled, Apply;
    assert !Suspects(states[n + 1]);
  }

  lemma KeysStay<V(!new)>(s: System<V>, a: Action<V>, leader: int)
    requires Static(s, leader) && Enabled(s, a)
    ensures Apply(s, a).leaf.Keys == s.leaf.Keys
  {
    StepKeepsStatic(s, a, leader);
  }

  /** A write of the successor skips nobody: everybody but the old leader is up and not suspected. */
  lemma NobodyIsSkipped<V(!new)>(s: System<V>, a: Action<V>, leader: int, r: int, f: int)
    requires Settled(s, leader, r, f) && !Loses(a, r, f)
    ensures Lossless(s, a, r, f)
  {
    SettledFeeds(s, leader, r, f);
    FeedsFacts(s, r, f);
    NotSuspected(s, r, f);
    var k := IndexOfNode(s.leaf[r].localNodes, f);
    assert s.leaf[r].localNodes[k].isAlive;
  }

  // ----- Runs -----

  /** Only the initial leader crashes, no promotion is lost, the detector is accurate; r is next in line, and
      everything that is ever written fits into its cache and that of f. */
  ghost predicate RoomyMildRun<V(!new)>(states: seq<System<V>>, actions: seq<Action<V>>, leader: int, r: int, f: int) {
    && MildRun(states, actions, leader) && Initial(states[0], leader) && LowestReplica(states[0], leader, r)
    && f in states[0].leaf && f != leader && f != r
    && |Written(states, actions, |actions|)| <= states[0].leaf[r].store.capacity
    && |Written(states, actions, |actions|)| <= states[0].leaf[f].store.capacity
  }

  lemma {:induction false} CapacitiesStay<V(!new)>(states: seq<System<V>>, actions: seq<Action<V>>, leader: int, i: int,
                                                   n: nat)
    requires IsRun(states, actions) && Initial(states[0], leader) && n < |states| && i in states[0].leaf
    ensures i in states[n].leaf && states[n].leaf[i].store.capacity == states[0].leaf[i].store.capacity
    decreases n
  {
    hide Static, Initial, KnownKeys, Apply;
    RunKeepsStatic(states, actions, leader, n);
    if n == 0 {
    } else {
      CapacitiesStay(states, actions, leader, i, n - 1);
      KeysAreWritten(states, actions, leader, n - 1);
      RunKeepsStatic(states, actions, leader, n - 1);
      StoreAfter(states[n - 1], actions[n - 1], leader, i);
      StoreThenValid(states[n - 1], actions[n - 1], i);
    }
  }

  /** What holds in every state of such a run. */
  lemma RunFits<V(!new)>(states: seq<System<V>>, actions: seq<Action<V>>, leader: int, r: int, f: int, n: nat)
    requires RoomyMildRun(states, actions, leader, r, f) && n < |states|
    ensures var room := Written(states, actions, |actions|).Keys;
            Fits(states[n], r, f, room) && Within(states[n], r, f, Written(states, actions, n).Keys)
            && Written(states, actions, n).Keys <= room
  {
    hide Initial, Suspects, MildStep, Enabled, Apply, KnownKeys;
    CapacitiesStay(states, actions, leader, r, n);
    CapacitiesStay(states, actions, leader, f, n);
    KeysAreWritten(states, actions, leader, n);
    WrittenGrows(states, actions, n, |actions|);
    KnownIsWithin(states[n], r, f, Written(states, actions, n).Keys);
  }

  lemma KnownIsWithin<V(!new)>(s: System<V>, p: int, f: int, room: set<string>)
    requires KnownKeys(s, room) && p in s.leaf && f in s.leaf
    ensures Within(s, p, f, room)
  {
    var q := Queue(s.net, p, f);
    DataIsThere(q);
    forall i | 0 <= i < |Data(q)|
      ensures Brought(Data(q)[i]) <= room
    {
      assert Data(q)[i] in q;
    }
  }

  lemma {:induction false} DataIsThere<V(!new)>(q: seq<Message<V>>)
    ensures forall m :: m in Data(q) ==> m in q
  {
    if q == [] {
    } else {
      DataIsThere(Init(q));
      assert q == Init(q) + [Last(q)];
    }
  }

  lemma RunHasTakenOver<V(!new)>(states: seq<System<V>>, actions: seq<Action<V>>, leader: int, r: int, n: nat)
    requires MildRun(states, actions, leader) && Initial(states[0], leader) && LowestReplica(states[0], leader, r)
    requires n < |states| && AcceptsWrites(states[n], r)
    ensures TakenOver(states[n], leader, r)
  {
    hide Initial, MildStep, Suspects, Static, Succession, DataFromLeaders, ValidStores;
    MildRunKeepsSuccession(states, actions, leader, r, n);
    MildRunDataFromLeaders(states, actions, leader, r, n);
    RunKeepsStatic(states, actions, leader, n);
    FollowsItself(states[n], leader, r);
  }

  lemma FollowsItself<V(!new)>(s: System<V>, leader: int, r: int)
    requires Static(s, leader) && AcceptsWrites(s, r)
    ensures r in s.leaf && s.leaf[r].currentLeaderId == r
  {
    Member(s, leader, r);
  }

  lemma NextWriteFits<V(!new)>(states: seq<System<V>>, actions: seq<Action<V>>, n: nat)
    requires |states| == |actions| + 1 && n < |actions|
    ensures AcceptedWrite(states[n], actions[n]) ==> actions[n].key in Written(states, actions, |actions|)
  {
    WrittenGrows(states, actions, n + 1, |actions|);
    assert AcceptedWrite(states[n], actions[n]) ==> actions[n].key in Written(states, actions, n + 1).Keys;
  }

  /** From a state on in which f is headed for some map with the successor's map over it, it stays so. */
  lemma {:induction false} HeadedForSuccessor<V(!new)>(states: seq<System<V>>, actions: seq<Action<V>>, leader: int,
                                                       r: int, f: int, base: map<string, V>, m: nat, n: nat)
    requires RoomyMildRun(states, actions, leader, r, f) && m <= n < |states| && Settled(states[m], leader, r, f)
    requires r in states[m].leaf && f in states[m].leaf
             && Pending(states[m], r, f) == base + states[m].leaf[r].store.kv
    requires forall k :: m <= k < n ==> !Loses(actions[k], r, f)
    ensures Settled(states[n], leader, r, f) && r in states[n].leaf && f in states[n].leaf
            && Pending(states[n], r, f) == base + states[n].leaf[r].store.kv
    decreases n
  {
    hide Initial, Suspects, MildStep, Enabled, Apply, Settled, Feeds, Pending, Fits, Within, Lossless;
    if m == n {
    } else {
      HeadedForSuccessor(states, actions, leader, r, f, base, m, n - 1);
      var s, a, room := states[n - 1], actions[n - 1], Written(states, actions, |actions|).Keys;
      MildStepAt(states, actions, leader, n - 1);
      StepKeepsSettled(s, a, leader, r, f);
      SettledFeeds(s, leader, r, f);
      NobodyIsSkipped(s, a, leader, r, f);
      RunFits(states, actions, leader, r, f, n - 1);
      WithinMore(s, r, f, Written(states, actions, n - 1).Keys, room);
      NextWriteFits(states, actions, n - 1);
      LosslessStepKeepsPending(s, a, states[n], r, f, base, room);
    }
  }

  /** The answer, and what follows it. */
  lemma AnsweredBySuccessor<V(!new)>(states: seq<System<V>>, actions: seq<Action<V>>, leader: int, r: int, f: int,
                                     m: nat, n: nat)
    requires RoomyMildRun(states, actions, leader, r, f) && m < n < |states| && Settled(states[m], leader, r, f)
    requires Answers(states[m], actions[m], r, f) && forall k :: m < k < n ==> !Loses(actions[k], r, f)
    ensures r in states[n].leaf && f in states[n].leaf && f in states[m].leaf
            && Pending(states[n], r, f) == Pending(states[m], r, f) + states[n].leaf[r].store.kv
  {
    hide Initial, Suspects, MildStep, Enabled, Apply, Settled, Feeds, Pending, Answers;
    SettledFeeds(states[m], leader, r, f);
    AnswerHeals(states[m], actions[m], states[m + 1], r, f);
    MildStepAt(states, actions, leader, m);
    StepKeepsSettled(states[m], actions[m], leader, r, f);
    HeadedForSuccessor(states, actions, leader, r, f, Pending(states[m], r, f), m + 1, n);
  }

  lemma OverlaidExactlyIff<V>(base: map<string, V>, w: map<string, V>)
    ensures base + w == w <==> base.Keys <= w.Keys
  {
    if base + w == w {
      assert (base + w).Keys == base.Keys + w.Keys;
    }
  }

  lemma NothingPendingLeft<V(!new)>(s: System<V>, p: int, f: int)
    requires f in s.leaf && Data(Queue(s.net, p, f)) == []
    ensures Pending(s, p, f) == s.leaf[f].store.kv
  {
  }

  /** A follower that the successor has answered, for which no data of the successor was lost since, and which has
      consumed its link, holds everything that the successor holds, with the same values; and beyond that the keys that
      it knew when it was answered. So the two maps are the same exactly if the successor holds all of those. */
  lemma SuccessorHealsIff<V(!new)>(states: seq<System<V>>, actions: seq<Action<V>>, leader: int, r: int, f: int,
                                   m: nat, n: nat)
    requires RoomyMildRun(states, actions, leader, r, f) && m < n < |states|
    requires AcceptsWrites(states[m], r) && Drained(states[m], leader, r) && Drained(states[m], leader, f)
    requires Answers(states[m], actions[m], r, f) && forall k :: m < k < n ==> !Loses(actions[k], r, f)
    requires Data(Queue(states[n].net, r, f)) == []
    ensures r in states[n].leaf && f in states[n].leaf && f in states[m].leaf
    ensures var own, led := states[n].leaf[f].store.kv, states[n].leaf[r].store.kv;
            && (forall k :: k in led ==> k in own && own[k] == led[k])
            && own.Keys == led.Keys + Pending(states[m], r, f).Keys
            && (own == led <==> Pending(states[m], r, f).Keys <= led.Keys)
  {
    hide Initial, Suspects, MildStep, Enabled, Apply, Pending, Answers, Drained;
    RunHasTakenOver(states, actions, leader, r, m);
    RunKeepsStatic(states, actions, leader, m);
    AnsweredBySuccessor(states, actions, leader, r, f, m, n);
    NothingPendingLeft(states[n], r, f);
    OverlaidExactlyIff(Pending(states[m], r, f), states[n].leaf[r].store.kv);
  }

  // ----- A successor that lacks nothing -----

  /** Every key that has been written is held by the successor. */
  ghost predicate LacksNothing<V>(states: seq<System<V>>, actions: seq<Action<V>>, r: int, n: nat)
    requires |states| == |actions| + 1 && n <= |actions|
  {
    r in states[n].leaf && Written(states, actions, n).Keys <= states[n].leaf[r].store.kv.Keys
  }

  lemma {:induction false} StillLacksNothing<V(!new)>(states: seq<System<V>>, actions: seq<Action<V>>, leader: int,
                                                      r: int, f: int, m: nat, n: nat)
    requires RoomyMildRun(states, actions, leader, r, f) && m <= n < |states| && Settled(states[m], leader, r, f)
    requires LacksNothing(states, actions, r, m)
    ensures Settled(states[n], leader, r, f) && LacksNothing(states, actions, r, n)
    decreases n
  {
    hide Initial, Suspects, MildStep, Enabled, Apply, Settled, Feeds, Fits, Within;
    if m == n {
    } else {
      StillLacksNothing(states, actions, leader, r, f, m, n - 1);
      var s, a, room := states[n - 1], actions[n - 1], Written(states, actions, |actions|).Keys;
      MildStepAt(states, actions, leader, n - 1);
      StepKeepsSettled(s, a, leader, r, f);
      SettledFeeds(s, leader, r, f);
      RunFits(states, actions, leader, r, f, n - 1);
      WithinMore(s, r, f, Written(states, actions, n - 1).Keys, room);
      NextWriteFits(states, actions, n - 1);
      KeysOfWithin(s, r, f, room);
      LeaderAfterStep(s, a, states[n], r, f, room);
    }
  }

  lemma KeysOfWithin<V>(s: System<V>, p: int, f: int, room: set<string>)
    requires Within(s, p, f, room)
    ensures p in s.leaf && s.leaf[p].store.kv.Keys <= room
  {
  }

  // ----- From the promotion on -----

  /** A promotion message in flight says that its sender has taken over. */
  lemma {:induction false} PromotionMeansTakeover<V(!new)>(states: seq<System<V>>, actions: seq<Action<V>>, leader: int,
                                                           r: int, i: int, n: nat)
    requires MildRun(states, actions, leader) && Initial(states[0], leader) && n < |states|
    requires LowestReplica(states[0], leader, r) && PromotionPending(states[n], r, i)
    ensures r in states[n].leaf && states[n].leaf[r].currentLeaderId == r
    decreases n
  {
    hide Static, Initial, Suspects, MildStep, Succession, Apply, Enabled, Scan;
    RunKeepsStatic(states, actions, leader, n);
    if n == 0 {
      NoPromotionAtStart(states[0], leader, r, i);
    } else {
      var s, a, s' := states[n - 1], actions[n - 1], states[n];
      MildRunKeepsSuccession(states, actions, leader, r, n - 1);
      RunKeepsStatic(states, actions, leader, n - 1);
      Replica(s, leader, r);
      var k :| 0 <= k < |Queue(s'.net, r, i)| && Queue(s'.net, r, i)[k].SelfPromotion?;
      NewPromotion(s, a, leader, r, i, k);
      if PromotionPending(s, r, i) {
        PromotionMeansTakeover(states, actions, leader, r, i, n - 1);
        StaysLeader(s, a, leader, r);
      } else {
        PromotedItself(s, r);
      }
    }
  }

  lemma NoPromotionAtStart<V(!new)>(s: System<V>, leader: int, r: int, i: int)
    requires Initial(s, leader)
    ensures !PromotionPending(s, r, i)
  {
    assert Queue(s.net, r, i) == [];
  }

  lemma PromotedItself<V(!new)>(s: System<V>, r: int)
    requires Enabled(s, ScanTables(r)) && Scan(s.leaf[r], s.now).1 != [] && s.leaf[r].nodeId == r
    ensures Apply(s, ScanTables(r)).leaf[r].currentLeaderId == r
  {
    ScanEffect(s.leaf[r], s.now);
  }

  /** A follower that consumes the promotion while no data of the old leader is in flight to it or to the successor,
      whose request is not lost, and for which no data is lost from then on: once it has consumed its link and no
      request of it is under way, it holds all that the successor holds; and if the successor lacked nothing that had
      been written, the two hold the same. */
  lemma PromotedFollowerCatchesUp<V(!new)>(states: seq<System<V>>, actions: seq<Action<V>>, leader: int, r: int, f: int,
                                           q: nat, n: nat)
    requires RoomyMildRun(states, actions, leader, r, f) && q < n < |states|
    requires actions[q].Deliver? && actions[q].sender == r && actions[q].node == f
             && Queue(states[q].net, r, f)[0].SelfPromotion?
    requires Drained(states[q], leader, r) && Drained(states[q], leader, f)
    requires forall k :: q < k < n ==> !Loses(actions[k], f, r) && !Loses(actions[k], r, f)
    requires !Asked(states[n], f, r) && Data(Queue(states[n].net, r, f)) == []
    ensures r in states[n].leaf && f in states[n].leaf
    ensures var own, led := states[n].leaf[f].store.kv, states[n].leaf[r].store.kv;
            && (forall k :: k in led ==> k in own && own[k] == led[k])
            && (LacksNothing(states, actions, r, q) ==> own == led)
  {
    hide Initial, Suspects, MildStep, Apply, Settled, Asked, Answers, Pending;
    PromotedFollowerIsSettled(states, actions, leader, r, f, q);
    MildStepAt(states, actions, leader, q);
    StepKeepsSettled(states[q], actions[q], leader, r, f);
    FollowerAsks(states, actions, leader, r, f, q);
    var m := AskedIsAnswered(states, actions, leader, f, r, q + 1, n);
    StaySettled(states, actions, leader, r, f, q + 1, m);
    AnsweredBySuccessor(states, actions, leader, r, f, m, n);
    NothingPendingLeft(states[n], r, f);
    if LacksNothing(states, actions, r, q) {
      StillLacksNothing(states, actions, leader, r, f, q, n);
      RunFits(states, actions, leader, r, f, m);
      PendingKeys(states[m], r, f, Written(states, actions, m).Keys);
      WrittenGrows(states, actions, m, n);
      OverlaidExactlyIff(Pending(states[m], r, f), states[n].leaf[r].store.kv);
    }
  }

  lemma PendingKeys<V(!new)>(s: System<V>, p: int, f: int, room: set<string>)
    requires Within(s, p, f, room)
    ensures Pending(s, p, f).Keys <= room
  {
    ReplayKeys(s.leaf[f].store.kv, Data(Queue(s.net, p, f)), room);
  }

  lemma {:induction false} StaySettled<V(!new)>(states: seq<System<V>>, actions: seq<Action<V>>, leader: int, r: int,
                                                f: int, m: nat, n: nat)
    requires MildRun(states, actions, leader) && m <= n < |states| && Settled(states[m], leader, r, f)
    ensures Settled(states[n], leader, r, f)
    decreases n
  {
    hide Suspects, MildStep, Enabled, Apply, Settled;
    if m == n {
    } else {
      StaySettled(states, actions, leader, r, f, m, n - 1);
      MildStepAt(states, actions, leader, n - 1);
      StepKeepsSettled(states[n - 1], actions[n - 1], leader, r, f);
    }
  }

  lemma PromotedFollowerIsSettled<V(!new)>(states: seq<System<V>>, actions: seq<Action<V>>, leader: int, r: int, f: int,
                                           q: nat)
    requires RoomyMildRun(states, actions, leader, r, f) && q < |actions|
    requires actions[q].Deliver? && actions[q].sender == r && actions[q].node == f
             && Queue(states[q].net, r, f)[0].SelfPromotion?
    requires Drained(states[q], leader, r) && Drained(states[q], leader, f)
    ensures Settled(states[q], leader, r, f)
  {
    hide Initial, Suspects, MildStep, Drained, TakenOver;
    assert PromotionPending(states[q], r, f);
    PromotionMeansTakeover(states, actions, leader, r, f, q);
    RunKeepsStatic(states, actions, leader, q);
    MildRunKeepsSuccession(states, actions, leader, r, q);
    Replica(states[q], leader, r);
    RunHasTakenOver(states, actions, leader, r, q);
  }

  lemma FollowerAsks<V(!new)>(states: seq<System<V>>, actions: seq<Action<V>>, leader: int, r: int, f: int, q: nat)
    requires IsRun(states, actions) && q < |actions| && Settled(states[q], leader, r, f)
    requires actions[q].Deliver? && actions[q].sender == r && actions[q].node == f
             && Queue(states[q].net, r, f)[0].SelfPromotion?
    ensures Asked(states[q + 1], f, r)
  {
    var s, a := states[q], actions[q];
    InFlight(s, leader, r, f, 0);
    SuccessorIsListed(s, leader, r, f);
    Member(s, leader, f);
    hide Settled;
    var l := s.leaf[f];
    assert l.localNodes[IndexOfNode(l.localNodes, r)].nodeId == r;
    PromotionIsFollowed(s, a, f, r);
    var queue := Queue(states[q + 1].net, f, r);
    assert queue[|queue| - 1].SyncRequest?;
  }
}
