/** One snapshot heals a follower: as long as everything written fits in the caches, a follower that has
    consumed its lossless messages since a sync response holds exactly the latest value of every key. */
module Healing {
  import opened Lists
  import opened Leaf
  import opened Cluster
  import opened Replication
  import opened Convergence

  /** What a follower would hold after consuming its link. */
  function Pending<V>(s: System<V>, leader: int, f: int): map<string, V>
    requires f in s.leaf
  {
    Replay(s.leaf[f].store.kv, Data(Queue(s.net, leader, f)))
  }

  /** The leader answers the follower's sync request. */
  ghost predicate Answers<V>(s: System<V>, a: Action<V>, leader: int, f: int) {
    && a.Deliver? && a.node == leader && a.sender == f && leader in s.leaf && Registered(s.leaf[leader].localNodes, f)
    && Queue(s.net, f, leader) != [] && Queue(s.net, f, leader)[0].SyncRequest?
  }

  /** No data to the follower is lost in this step, and no push skips it. */
  ghost predicate Lossless<V>(s: System<V>, a: Action<V>, leader: int, f: int) {
    && !(a.Drop? && a.sender == leader && a.node == f)
    && (AcceptedWrite(s, a) && leader in s.leaf ==> SomeAlive(s.leaf[leader].localNodes, f))
  }

  /** An answer puts the whole map of the feeding node over what the follower is headed for, whatever was lost
      before. */
  lemma AnswerHeals<V(!new)>(s: System<V>, a: Action<V>, s': System<V>, p: int, f: int)
    requires Feeds(s, p, f) && Enabled(s, a) && s' == Apply(s, a) && Answers(s, a, p, f)
    ensures f in s.leaf && f in s'.leaf && p in s.leaf && p in s'.leaf
    ensures Pending(s', p, f) == Pending(s, p, f) + s.leaf[p].store.kv && s'.leaf[p].store.kv == s.leaf[p].store.kv
  {
    hide Feeds, Data, Fed, Apply;
    FollowerAfterAnswer(s, a, s', p, f);
    FedBrings(s, a, p, f);
    ReplayLast(s.leaf[f].store.kv, Data(Queue(s.net, p, f)), Fed(s, a, p, f)[0]);
  }

  lemma ReplayLast<V(!new)>(m: map<string, V>, d: seq<Message<V>>, last: Message<V>)
    ensures Replay(m, d + [last]) == Merge(Replay(m, d), last)
  {
    assert Init(d + [last]) == d;
  }

  lemma FollowerAfterAnswer<V(!new)>(s: System<V>, a: Action<V>, s': System<V>, p: int, f: int)
    requires Feeds(s, p, f) && Enabled(s, a) && s' == Apply(s, a) && Answers(s, a, p, f)
    ensures f in s.leaf && f in s'.leaf && p in s'.leaf && s'.leaf[f].store.kv == s.leaf[f].store.kv
    ensures |Fed(s, a, p, f)| == 1 && s'.leaf[p].store.kv == s.leaf[p].store.kv
    ensures Data(Queue(s'.net, p, f)) == Data(Queue(s.net, p, f)) + [Fed(s, a, p, f)[0]]
  {
    var watched :| Static(s, watched);
    DataAfter(s, a, p, f);
    StoreAfter(s, a, watched, f);
    StoreAfter(s, a, watched, p);
  }

  /** A lossless step keeps the follower headed for some map with the feeding node's map over it. */
  lemma LosslessStepKeepsPending<V(!new)>(s: System<V>, a: Action<V>, s': System<V>, p: int, f: int,
                                          base: map<string, V>, room: set<string>)
    requires Feeds(s, p, f) && Enabled(s, a) && s' == Apply(s, a) && Fits(s, p, f, room) && Within(s, p, f, room)
    requires Lossless(s, a, p, f) && (AcceptedWrite(s, a) ==> a.key in room)
    requires Pending(s, p, f) == base + s.leaf[p].store.kv
    ensures f in s'.leaf && p in s'.leaf && Pending(s', p, f) == base + s'.leaf[p].store.kv
  {
    hide Feeds, Data, Fed, Apply, Enabled, Replay, Merge;
    var d, m, fed := Data(Queue(s.net, p, f)), s.leaf[f].store.kv, Fed(s, a, p, f);
    LeaderAfterStep(s, a, s', p, f, room);
    FollowerAfterStep(s, a, s', p, f, room);
    FedByWrite(s, a, p, f);
    if fed != [] && Data(Queue(s'.net, p, f)) == d + fed {
      FedOnTop(s, a, p, f, base, m, d);
    } else if fed == [] && Data(Queue(s'.net, p, f)) == d + fed && s'.leaf[f].store.kv == m {
      assert d + fed == d;
    } else {
      assert d == [d[0]] + d[1..];
      ReplayFirst(m, d[0], d[1..]);
    }
  }

  /** What is sent comes on top of everything before it. */
  lemma FedOnTop<V(!new)>(s: System<V>, a: Action<V>, p: int, f: int, base: map<string, V>, m: map<string, V>,
                          d: seq<Message<V>>)
    requires Feeds(s, p, f) && Enabled(s, a) && Lossless(s, a, p, f) && Fed(s, a, p, f) != []
    requires Replay(m, d) == base + s.leaf[p].store.kv
    ensures Replay(m, d + Fed(s, a, p, f)) == base + WrittenThen(s.leaf[p].store.kv, s, a)
  {
    hide Feeds, Fed, Enabled, Lossless, Data;
    FedByWrite(s, a, p, f) by {
      FeedsFacts(s, p, f);
    }
    FedBrings(s, a, p, f);
    var fed := Fed(s, a, p, f);
    assert fed == [fed[0]];
    ReplayLast(m, d, fed[0]);
  }

  lemma FedByWrite<V(!new)>(s: System<V>, a: Action<V>, p: int, f: int)
    requires p in s.leaf && Lossless(s, a, p, f)
    ensures |Fed(s, a, p, f)| <= 1
    ensures AcceptedWrite(s, a) ==> Fed(s, a, p, f) == [Push(p, s.now, a.key, a.value)]
  {
  }

  // ----- Whole runs -----

  lemma {:induction false} RunIsCovered<V(!new)>(states: seq<System<V>>, actions: seq<Action<V>>, leader: int, f: int,
                                                 room: set<string>, n: nat)
    requires OneLeaderRun(states, actions, leader) && n < |states| && f != leader
    requires Fits(states[0], leader, f, room) && Written(states, actions, |actions|).Keys <= room
    ensures Covered(states[n], leader, f, Written(states, actions, n)) && Fits(states[n], leader, f, room)
    decreases n
  {
    hide Orderly, Initial, OneLeader, Covered, Fits;
    if n == 0 {
      StartIsCovered(states[0], leader, f, room);
    } else {
      RunIsCovered(states, actions, leader, f, room, n - 1);
      RunIsOrderly(states, actions, leader, n - 1);
      WrittenGrows(states, actions, n, |actions|);
      StepKeepsCovered(states[n - 1], actions[n - 1], states[n], leader, f, Written(states, actions, n - 1), room);
    }
  }

  lemma StartIsCovered<V(!new)>(s: System<V>, leader: int, f: int, room: set<string>)
    requires Initial(s, leader) && Fits(s, leader, f, room)
    ensures Covered(s, leader, f, map[])
  {
    FreshStores(s, leader);
  }

  /** From a state in which the follower is headed for the latest values, lossless steps keep it so. */
  lemma {:induction false} PendingStaysLatest<V(!new)>(states: seq<System<V>>, actions: seq<Action<V>>, leader: int,
                                                       f: int, room: set<string>, m: nat, n: nat)
    requires OneLeaderRun(states, actions, leader) && m <= n < |states| && f != leader
    requires Fits(states[0], leader, f, room) && Written(states, actions, |actions|).Keys <= room
    requires f in states[m].leaf && Pending(states[m], leader, f) == Written(states, actions, m)
    requires forall k :: m <= k < n ==> Lossless(states[k], actions[k], leader, f)
    ensures f in states[n].leaf && Pending(states[n], leader, f) == Written(states, actions, n)
    decreases n
  {
    hide Orderly, Feeds, Initial, OneLeader, Within, Fits, Pending, Lossless;
    if m == n {
    } else {
      PendingStaysLatest(states, actions, leader, f, room, m, n - 1);
      var s, a, w := states[n - 1], actions[n - 1], Written(states, actions, n - 1);
      RunIsCovered(states, actions, leader, f, room, n - 1);
      RunIsCovered(states, actions, leader, f, room, n);
      RunIsOrderly(states, actions, leader, n - 1);
      WrittenGrows(states, actions, n - 1, n);
      WrittenGrows(states, actions, n, |actions|);
      WithinMore(s, leader, f, w.Keys, room);
      OrderlyFeeds(s, leader, f);
      NothingUnder(w);
      NothingUnder(states[n].leaf[leader].store.kv);
      LosslessStepKeepsPending(s, a, states[n], leader, f, map[], room);
    }
  }

  lemma NothingUnder<V>(w: map<string, V>)
    ensures map[] + w == w
  {
  }

  lemma WithinMore<V>(s: System<V>, p: int, f: int, room: set<string>, more: set<string>)
    requires Within(s, p, f, room) && room <= more
    ensures Within(s, p, f, more)
  {
  }

  /** After an answer under one leader the follower is headed for exactly the latest values. */
  lemma AnswerLeadsToLatest<V(!new)>(s: System<V>, a: Action<V>, s': System<V>, leader: int, f: int, w: map<string, V>)
    requires Orderly(s, leader) && Enabled(s, a) && s' == Apply(s, a) && f != leader && Covered(s, leader, f, w)
    requires Answers(s, a, leader, f)
    ensures f in s'.leaf && Pending(s', leader, f) == WrittenThen(w, s, a)
  {
    hide Orderly, Data, Apply;
    OrderlyFeeds(s, leader, f);
    AnswerHeals(s, a, s', leader, f);
    ReplayKeys(s.leaf[f].store.kv, Data(Queue(s.net, leader, f)), w.Keys);
  }

  /** While the keys ever written fit in both caches: once the leader has answered a follower's sync request,
      and nothing has been lost or skipped for it since, then as soon as it has consumed its link it holds
      exactly the leader's map, which is the latest value of every key. */
  lemma SnapshotHealsFollower<V(!new)>(states: seq<System<V>>, actions: seq<Action<V>>, leader: int, f: int, m: nat,
                                       n: nat)
    requires OneLeaderRun(states, actions, leader) && m < n < |states| && f != leader
    requires f in states[0].leaf
    requires |Written(states, actions, |actions|)| <= states[0].leaf[leader].store.capacity
    requires |Written(states, actions, |actions|)| <= states[0].leaf[f].store.capacity
    requires Answers(states[m], actions[m], leader, f)
    requires forall k :: m < k < n ==> Lossless(states[k], actions[k], leader, f)
    requires Data(Queue(states[n].net, leader, f)) == []
    ensures leader in states[n].leaf && f in states[n].leaf
    ensures states[n].leaf[f].store.kv == states[n].leaf[leader].store.kv == Written(states, actions, n)
  {
    hide Orderly, Feeds, OneLeader, Lossless, Answers, Data, Apply, Enabled;
    var room := Written(states, actions, |actions|).Keys;
    InitialIsStatic(states[0], leader);
    hide Initial, Static;
    RunIsCovered(states, actions, leader, f, room, m);
    RunIsOrderly(states, actions, leader, m);
    AnswerLeadsToLatest(states[m], actions[m], states[m + 1], leader, f, Written(states, actions, m));
    PendingStaysLatest(states, actions, leader, f, room, m + 1, n);
    RunIsCovered(states, actions, leader, f, room, n);
  }
}
