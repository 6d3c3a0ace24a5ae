/** Failover on time: with timely heartbeats nothing has to be said about the detector, and the lowest replica
    leads after its first scan later than one detector limit behind the crash. */
module TimedFailover {
  import opened Leaf
  import opened LeafFacts
  import opened Cluster
  import opened Leadership
  import opened Failover

  /** Heartbeats are timely, only the initial leader crashes, and no promotion message is lost. */
  ghost predicate TimelyMildRun<V>(states: seq<System<V>>, actions: seq<Action<V>>, leader: int, gap: nat, delay: nat) {
    && TimelyRun(states, actions, gap, delay) && gap + delay <= HEARTBEAT_LIMIT && Initial(states[0], leader)
    && forall k :: 0 <= k < |actions| ==> MildStep(states[k], actions[k], leader)
  }

  /** Timely heartbeats keep the detector accurate. */
  lemma TimelyIsMild<V(!new)>(states: seq<System<V>>, actions: seq<Action<V>>, leader: int, gap: nat, delay: nat)
    requires TimelyMildRun(states, actions, leader, gap, delay)
    ensures MildRun(states, actions, leader)
  {
    hide Suspects, Initial, MildStep, Timely;
    forall k | 0 <= k < |states|
      ensures !Suspects(states[k])
    {
      NoFalseSuspicion(states, actions, leader, gap, delay, k);
    }
  }

  // ----- What the replica knows of a crashed leader -----

  /** Nothing that node r has seen of the leader, or will see on its link, is from after time `at`. */
  ghost predicate KnownUpTo<V>(s: System<V>, leader: int, r: int, at: int) {
    && r in s.leaf && Registered(s.leaf[r].localNodes, leader) && Entry(s.leaf[r], leader).lastSeen <= at
    && var q := Stamps(Queue(s.net, leader, r)); forall i :: 0 <= i < |q| ==> q[i] <= at
  }

  lemma KnownAfter<V(!new)>(s: System<V>, a: Action<V>, leader: int, r: int, at: int)
    requires Static(s, leader) && Enabled(s, a) && !LosesHeartBeat(s, a) && r in s.leaf && r != leader
    requires KnownUpTo(s, leader, r, at) && (a.Beat? && a.node == leader ==> s.now <= at)
    ensures KnownUpTo(Apply(s, a), leader, r, at)
  {
    hide Static, Stamps, Enabled, Apply, LosesHeartBeat;
    LeaderIsMember(s, leader);
    EntryAfter(s, a, leader, r, leader);
    StampsAfter(s, a, leader, leader, r);
  }

  lemma KnownFromStart<V(!new)>(s: System<V>, leader: int, r: int)
    requires Initial(s, leader) && r in s.leaf
    ensures KnownUpTo(s, leader, r, s.now)
  {
    assert StaticLeaf(s.leaf[r], r, leader, s.leaf.Keys);
  }

  lemma {:induction false} KnownUpToNow<V(!new)>(states: seq<System<V>>, actions: seq<Action<V>>, leader: int, r: int,
                                                 gap: nat, delay: nat, n: nat)
    requires TimelyMildRun(states, actions, leader, gap, delay) && n < |states| && r in states[0].leaf && r != leader
    ensures KnownUpTo(states[n], leader, r, states[n].now)
    decreases n
  {
    hide Static, Initial, KnownUpTo, MildStep, Timely, Stamps, LosesHeartBeat;
    if n == 0 {
      KnownFromStart(states[0], leader, r);
    } else {
      var s, a := states[n - 1], actions[n - 1];
      KnownUpToNow(states, actions, leader, r, gap, delay, n - 1);
      RunKeepsStatic(states, actions, leader, n - 1);
      assert !LosesHeartBeat(states[n - 1], actions[n - 1]);
      KnownAfter(s, a, leader, r, s.now);
      KnownLater(states[n], leader, r, s.now, states[n].now);
    }
  }

  lemma KnownLater<V>(s: System<V>, leader: int, r: int, at: int, later: int)
    requires KnownUpTo(s, leader, r, at) && at <= later
    ensures KnownUpTo(s, leader, r, later)
  {
  }

  /** Once the leader has crashed at step c, node r never learns of anything later. */
  lemma {:induction false} KnownUpToCrash<V(!new)>(states: seq<System<V>>, actions: seq<Action<V>>, leader: int, r: int,
                                                   gap: nat, delay: nat, c: nat, n: nat)
    requires TimelyMildRun(states, actions, leader, gap, delay) && c < n < |states| && r in states[0].leaf
             && r != leader
    requires actions[c] == Crash(leader)
    ensures KnownUpTo(states[n], leader, r, states[c].now) && leader !in states[n].up
    decreases n
  {
    hide Static, Initial, KnownUpTo, MildStep, Timely, Stamps, LosesHeartBeat;
    var s, a := states[n - 1], actions[n - 1];
    RunKeepsStatic(states, actions, leader, n - 1);
    assert !LosesHeartBeat(states[n - 1], actions[n - 1]);
    if c == n - 1 {
      KnownUpToNow(states, actions, leader, r, gap, delay, c);
    } else {
      KnownUpToCrash(states, actions, leader, r, gap, delay, c, n - 1);
    }
    KnownAfter(s, a, leader, r, states[c].now);
  }

  // ----- The takeover -----

  lemma StaysLeader<V(!new)>(s: System<V>, a: Action<V>, leader: int, r: int)
    requires Static(s, leader) && Enabled(s, a) && Succession(s, leader, r) && s.leaf[r].currentLeaderId == r
    ensures r in Apply(s, a).leaf && Apply(s, a).leaf[r].currentLeaderId == r
  {
    hide Static, Apply, Roles, Told, OthersUp;
    LeaderAfter(s, a, Apply(s, a), leader, r);
  }

  lemma Replica<V(!new)>(s: System<V>, leader: int, r: int)
    requires Static(s, leader) && Succession(s, leader, r)
    ensures leader in s.leaf && r in s.leaf && r in s.up && r != leader && s.leaf[r].nodeId == r
    ensures Registered(s.leaf[r].localNodes, leader)
  {
    Member(s, leader, r);
  }

  /** A replica that lists the initial leader as dead has taken over. */
  lemma {:induction false} DeadMeansTakenOver<V(!new)>(states: seq<System<V>>, actions: seq<Action<V>>, leader: int,
                                                       r: int, n: nat)
    requires MildRun(states, actions, leader) && Initial(states[0], leader) && n < |states|
    requires LowestReplica(states[0], leader, r)
    ensures r in states[n].leaf && (MarkedDead(states[n].leaf[r], leader) ==> states[n].leaf[r].currentLeaderId == r)
    decreases n
  {
    hide Static, Initial, Suspects, MildStep, Scan, Succession, Apply, Enabled;
    MildRunKeepsSuccession(states, actions, leader, r, n);
    RunKeepsStatic(states, actions, leader, n);
    Replica(states[n], leader, r);
    if n == 0 {
      NobodyStartsDead(states[0], leader, r);
    } else {
      var s, a := states[n - 1], actions[n - 1];
      DeadMeansTakenOver(states, actions, leader, r, n - 1);
      MildRunKeepsSuccession(states, actions, leader, r, n - 1);
      RunKeepsStatic(states, actions, leader, n - 1);
      Replica(s, leader, r);
      EntryAfter(s, a, leader, r, leader);
      if s.leaf[r].currentLeaderId == r {
        StaysLeader(s, a, leader, r);
      } else if a == ScanTables(r) && Overdue(Entry(s.leaf[r], leader), s.now) {
        OverdueLeaderIsReplaced(states, actions, leader, r, n - 1);
      }
    }
  }

  /** A scan later than the detector's limit behind everything known of the leader finds the replica leading. */
  lemma LateScanTakesOver<V(!new)>(states: seq<System<V>>, actions: seq<Action<V>>, leader: int, r: int, at: int,
                                   n: nat)
    requires MildRun(states, actions, leader) && Initial(states[0], leader) && n < |actions|
    requires LowestReplica(states[0], leader, r) && actions[n] == ScanTables(r)
    requires KnownUpTo(states[n], leader, r, at) && states[n].now > at + HEARTBEAT_LIMIT
    ensures AcceptsWrites(states[n + 1], r)
  {
    hide Static, Initial, Suspects, MildStep, Scan, Succession, Apply, Enabled;
    MildRunKeepsSuccession(states, actions, leader, r, n);
    MildRunKeepsSuccession(states, actions, leader, r, n + 1);
    RunKeepsStatic(states, actions, leader, n);
    RunKeepsStatic(states, actions, leader, n + 1);
    Replica(states[n], leader, r);
    Replica(states[n + 1], leader, r);
    if Overdue(Entry(states[n].leaf[r], leader), states[n].now) {
      OverdueLeaderIsReplaced(states, actions, leader, r, n);
    } else {
      DeadMeansTakenOver(states, actions, leader, r, n);
      StaysLeader(states[n], actions[n], leader, r);
    }
  }

  lemma {:induction false} GoesOnLeading<V(!new)>(states: seq<System<V>>, actions: seq<Action<V>>, leader: int, r: int,
                                                  m: nat, n: nat)
    requires MildRun(states, actions, leader) && Initial(states[0], leader) && m <= n < |states|
    requires LowestReplica(states[0], leader, r) && AcceptsWrites(states[m], r)
    ensures AcceptsWrites(states[n], r)
    decreases n
  {
    hide Static, Initial, Suspects, MildStep, Succession, Apply, Enabled;
    if m == n {
    } else {
      GoesOnLeading(states, actions, leader, r, m, n - 1);
      MildRunKeepsSuccession(states, actions, leader, r, n - 1);
      MildRunKeepsSuccession(states, actions, leader, r, n);
      RunKeepsStatic(states, actions, leader, n - 1);
      RunKeepsStatic(states, actions, leader, n);
      Replica(states[n - 1], leader, r);
      Replica(states[n], leader, r);
      StaysLeader(states[n - 1], actions[n - 1], leader, r);
    }
  }

  /** If the leader has crashed at step c, then from the lowest replica's first scan more than 15 seconds later
      on, that replica accepts writes and nobody else does. */
  lemma TakeoverOnTime<V(!new)>(states: seq<System<V>>, actions: seq<Action<V>>, leader: int, r: int, gap: nat,
                                delay: nat, c: nat, n: nat, m: nat)
    requires TimelyMildRun(states, actions, leader, gap, delay) && LowestReplica(states[0], leader, r)
    requires c < n < m < |states| && actions[c] == Crash(leader)
    requires actions[n] == ScanTables(r) && states[n].now > states[c].now + 15000
    ensures forall i :: AcceptsWrites(states[m], i) <==> i == r
  {
    hide Initial, MildStep, Timely, KnownUpTo;
    TimelyIsMild(states, actions, leader, gap, delay);
    KnownUpToCrash(states, actions, leader, r, gap, delay, c, n);
    LateScanTakesOver(states, actions, leader, r, states[c].now, n);
    GoesOnLeading(states, actions, leader, r, n + 1, m);
    forall i | AcceptsWrites(states[m], i)
      ensures i == r
    {
      AtMostOneLeader(states, actions, leader, gap, delay, m, i, r);
    }
  }

  /** And once its promotion messages have been consumed, every live node follows it. */
  lemma AgreementOnTime<V(!new)>(states: seq<System<V>>, actions: seq<Action<V>>, leader: int, r: int, gap: nat,
                                 delay: nat, c: nat, n: nat, m: nat)
    requires TimelyMildRun(states, actions, leader, gap, delay) && LowestReplica(states[0], leader, r)
    requires c < n < m < |states| && actions[c] == Crash(leader)
    requires actions[n] == ScanTables(r) && states[n].now > states[c].now + 15000
    requires forall i :: i in states[m].up ==> !PromotionPending(states[m], r, i)
    ensures forall i :: i in states[m].up ==> i in states[m].leaf && states[m].leaf[i].currentLeaderId == r
  {
    TimelyIsMild(states, actions, leader, gap, delay);
    TakeoverOnTime(states, actions, leader, r, gap, delay, c, n, m);
    FailoverAgreement(states, actions, leader, r, m);
  }
}
