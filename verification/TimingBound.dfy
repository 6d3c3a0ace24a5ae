/** The timing condition of module Leadership is exact: whenever send gap and delay together exceed the
    detector's limit, a run that keeps to them ends with two nodes accepting writes. */
module TimingBound {
  import opened Lists
  import opened Lru
  import opened Leaf
  import opened LeafFacts
  import opened Cluster
  import opened Leadership
  import opened Failover

  type Run = (seq<System<int>>, seq<Action<int>>)

  // ----- Two nodes that only send heartbeats -----

  const TABLE := [Descriptor(1, 0, 0, true), Descriptor(2, 0, 0, true)]

  function Node(i: int): LeafState<int> {
    LeafState(i, if i == 2 then LocalLeader else PromotionReadyReplica, 2, 2, 0, 2, TABLE, [], Cache(1, [], map[]))
  }

  function Pair(): System<int> {
    System(0, map[1 := Node(1), 2 := Node(2)], {1, 2}, map[1 := 0, 2 := 0], map[])
  }

  function SendBeat(node: int): Action<int> {
    Action.Beat(node, 0)
  }

  lemma TableEntries()
    ensures IndexOfNode(TABLE, 1) == 0 && IndexOfNode(TABLE, 2) == 1 && DistinctIds(TABLE)
    ensures forall j :: Registered(TABLE, j) <==> j in {1, 2}
  {
    forall j
      ensures Registered(TABLE, j) <==> j in {1, 2}
    {
      var i := IndexOfNode(TABLE, j);
      assert j == 1 ==> TABLE[0].nodeId == j;
      assert j == 2 ==> TABLE[1].nodeId == j;
    }
  }

  lemma NodeIsGood(i: int)
    requires i in {1, 2}
    ensures StaticLeaf(Node(i), i, 2, {1, 2}) && FreshLeaf(Node(i), 2)
    ensures forall j :: j in {1, 2} ==> Entry(Node(i), j).isAlive && Entry(Node(i), j).lastSeen == 0
  {
    TableEntries();
    assert TABLE[0].isAlive && TABLE[1].isAlive;
  }

  lemma PairIsInitial()
    ensures Initial(Pair(), 2)
  {
    hide Node, StaticLeaf, FreshLeaf, Entry, Registered;
    var s := Pair();
    assert s.leaf.Keys == {1, 2};
    NodeIsGood(1);
    NodeIsGood(2);
    forall i | i in s.leaf
      ensures StaticLeaf(s.leaf[i], i, 2, s.leaf.Keys) && FreshLeaf(s.leaf[i], 2)
    {
      assert s.leaf[i] == Node(i);
    }
  }

  /** After some rounds: both nodes have just sent heartbeats, and none has arrived yet. */
  ghost predicate Waiting(s: System<int>, at: nat, gap: nat) {
    && s.now == at && s.leaf == Pair().leaf && s.up == {1, 2}
    && s.lastSent.Keys == {1, 2} && (forall j :: j in s.up ==> 0 <= at - s.lastSent[j] <= gap)
    && InFlightSince(s, gap)
  }

  /** Everything on a link is a heartbeat sent at time gap or later. */
  ghost predicate InFlightSince(s: System<int>, gap: nat) {
    forall i, j, k :: 0 <= k < |Queue(s.net, j, i)| ==>
      Queue(s.net, j, i)[k].HeartBeat? && Queue(s.net, j, i)[k].lastSeen >= gap
  }

  lemma WaitingIsTimely(s: System<int>, at: nat, gap: nat, delay: nat)
    requires Waiting(s, at, gap) && at <= gap + delay
    ensures Timely(s, gap, delay)
  {
  }

  lemma BeatKeepsWaiting(s: System<int>, node: int, at: nat, gap: nat)
    requires Waiting(s, at, gap) && node in {1, 2} && at >= gap
    ensures Enabled(s, SendBeat(node)) && Waiting(Apply(s, SendBeat(node)), at, gap)
    ensures var s' := Apply(s, SendBeat(node)); s'.lastSent == s.lastSent[node := at]
  {
    var a, l := SendBeat(node), s.leaf[node];
    var s', sends := Apply(s, a), Local(s, a).1;
    assert s'.leaf == s.leaf;
    ToPeersReaches<int>(l.localNodes, l.nodeId, HeartBeat(l.nodeId, s.now, 0));
    forall i, j, k | 0 <= k < |Queue(s'.net, j, i)|
      ensures Queue(s'.net, j, i)[k].HeartBeat? && Queue(s'.net, j, i)[k].lastSeen >= gap
    {
      QueueAfter(s, a, j, i);
      AddressedIsSent(sends, i);
      if k >= |Queue(s.net, j, i)| {
        assert Queue(s'.net, j, i)[k] in Addressed(sends, i);
      }
    }
  }

  lemma TickKeepsWaiting(s: System<int>, elapsed: nat, at: nat, gap: nat)
    requires Waiting(s, at, gap) && (forall j :: j in s.up ==> at + elapsed - s.lastSent[j] <= gap)
    ensures Waiting(Apply(s, Tick(elapsed)), at + elapsed, gap)
  {
  }

  // ----- Putting a run together -----

  ghost predicate GoodRun(r: Run, gap: nat, delay: nat) {
    TimelyRun(r.0, r.1, gap, delay) && Initial(r.0[0], 2)
  }

  lemma RunStarts(r: Run, gap: nat, delay: nat)
    requires GoodRun(r, gap, delay)
    ensures r.0 != [] && TimelyRun(r.0, r.1, gap, delay) && Initial(r.0[0], 2)
  {
  }

  function Extended(r: Run, a: Action<int>, s: System<int>): Run {
    (r.0 + [s], r.1 + [a])
  }

  lemma ExtendedIsGood(r: Run, a: Action<int>, gap: nat, delay: nat)
    requires GoodRun(r, gap, delay) && Enabled(Last(r.0), a) && (a.Tick? || a.Beat? || a.ScanTables?)
    requires Timely(Apply(Last(r.0), a), gap, delay)
    ensures GoodRun(Extended(r, a, Apply(Last(r.0), a)), gap, delay)
  {
    hide Timely, Initial, Enabled, Apply;
    var q := Extended(r, a, Apply(Last(r.0), a));
    assert forall k :: 0 <= k < |r.0| ==> q.0[k] == r.0[k];
    assert forall k :: 0 <= k < |r.1| ==> q.1[k] == r.1[k];
  }

  lemma StartRun(gap: nat, delay: nat) returns (r: Run)
    ensures GoodRun(r, gap, delay) && Waiting(Last(r.0), 0, gap) && Last(r.0).lastSent == map[1 := 0, 2 := 0]
  {
    PairIsInitial();
    r := ([Pair()], []);
    WaitingIsTimely(Pair(), 0, gap, delay);
  }

  /** One more round of heartbeats, a full gap later. */
  lemma NextRound(r: Run, at: nat, gap: nat, delay: nat) returns (q: Run)
    requires GoodRun(r, gap, delay) && Waiting(Last(r.0), at, gap) && Last(r.0).lastSent == map[1 := at, 2 := at]
    requires at + gap <= gap + delay
    ensures GoodRun(q, gap, delay) && Waiting(Last(q.0), at + gap, gap)
    ensures Last(q.0).lastSent == map[1 := at + gap, 2 := at + gap]
  {
    hide GoodRun, Timely, Waiting;
    RunStarts(r, gap, delay);
    var s := Last(r.0);
    WaitingFacts(s, at, gap);
    var s1 := Apply(s, Tick(gap));
    TickKeepsWaiting(s, gap, at, gap);
    WaitingIsTimely(s1, at + gap, gap, delay);
    ExtendedIsGood(r, Tick(gap), gap, delay);
    var r1 := Extended(r, Tick(gap), s1);
    BeatKeepsWaiting(s1, 1, at + gap, gap);
    var s2 := Apply(s1, SendBeat(1));
    WaitingIsTimely(s2, at + gap, gap, delay);
    ExtendedIsGood(r1, SendBeat(1), gap, delay);
    var r2 := Extended(r1, SendBeat(1), s2);
    BeatKeepsWaiting(s2, 2, at + gap, gap);
    var s3 := Apply(s2, SendBeat(2));
    WaitingIsTimely(s3, at + gap, gap, delay);
    ExtendedIsGood(r2, SendBeat(2), gap, delay);
    q := Extended(r2, SendBeat(2), s3);
  }

  lemma WaitingFacts(s: System<int>, at: nat, gap: nat)
    requires Waiting(s, at, gap)
    ensures s.up == {1, 2} && s.now == at
  {
  }

  /** Rounds of heartbeats until less than a gap is left before `until`. */
  lemma {:induction false} Rounds(r: Run, at: nat, gap: nat, delay: nat, until: nat) returns (q: Run, last: nat)
    requires GoodRun(r, gap, delay) && Waiting(Last(r.0), at, gap) && Last(r.0).lastSent == map[1 := at, 2 := at]
    requires 0 < gap && at <= until <= gap + delay
    ensures GoodRun(q, gap, delay) && Waiting(Last(q.0), last, gap) && Last(q.0).lastSent == map[1 := last, 2 := last]
    ensures last <= until < last + gap
    decreases until - at
  {
    hide GoodRun, Waiting;
    if until < at + gap {
      q, last := r, at;
    } else {
      var next := NextRound(r, at, gap, delay);
      q, last := Rounds(next, at + gap, gap, delay, until);
    }
  }

  // ----- The second leader -----

  lemma ScanMakesSecondLeader(s: System<int>, at: nat, gap: nat)
    requires Waiting(s, at, gap) && at > HEARTBEAT_LIMIT
    ensures Enabled(s, ScanTables(1))
    ensures var s' := Apply(s, ScanTables(1)); AcceptsWrites(s', 1) && AcceptsWrites(s', 2)
  {
    TableEntries();
    var l := Node(1);
    assert s.leaf[1] == l && s.leaf[2] == Node(2);
    assert StaticLeaf(l, 1, 2, {1, 2});
    OverdueScanPromotes(l, 2, 1, {1, 2}, at);
  }

  lemma ScanStaysTimely(s: System<int>, at: nat, gap: nat, delay: nat)
    requires Waiting(s, at, gap) && at <= gap + delay
    ensures Enabled(s, ScanTables(1)) && Timely(Apply(s, ScanTables(1)), gap, delay)
  {
    var a := Action<int>.ScanTables(1);
    var s', sends := Apply(s, a), Local(s, a).1;
    SentByScan(s.leaf[1], s.now);
    forall i, j, k | 0 <= k < |Queue(s'.net, j, i)|
      ensures Queue(s'.net, j, i)[k].HeartBeat? ==> s'.now - Queue(s'.net, j, i)[k].lastSeen <= delay
    {
      QueueAfter(s, a, j, i);
      AddressedIsSent(sends, i);
      if k >= |Queue(s.net, j, i)| {
        assert Queue(s'.net, j, i)[k] in Addressed(sends, i);
      }
    }
  }

  /** For every positive gap and every delay beyond the bound of AtMostOneLeader there is a run that keeps to
      them and ends with two nodes accepting writes. */
  lemma TwoLeadersBeyondTheBound(gap: nat, delay: nat) returns (states: seq<System<int>>, actions: seq<Action<int>>)
    requires gap > 0 && gap + delay > 15000
    ensures TimelyRun(states, actions, gap, delay) && Initial(states[0], 2)
    ensures AcceptsWrites(Last(states), 1) && AcceptsWrites(Last(states), 2)
  {
    hide Timely, Waiting, TimelyRun, Initial, GoodRun;
    var until := HEARTBEAT_LIMIT + 1;
    var start := StartRun(gap, delay);
    var r, at := Rounds(start, 0, gap, delay, until);
    RunStarts(r, gap, delay);
    var s := Last(r.0);
    WaitingFacts(s, at, gap);
    TickKeepsWaiting(s, until - at, at, gap);
    var s1 := Apply(s, Tick(until - at));
    WaitingIsTimely(s1, until, gap, delay);
    ExtendedIsGood(r, Tick(until - at), gap, delay);
    var r1 := Extended(r, Tick(until - at), s1);
    ScanMakesSecondLeader(s1, until, gap);
    ScanStaysTimely(s1, until, gap, delay);
    ExtendedIsGood(r1, ScanTables(1), gap, delay);
    var r2 := Extended(r1, ScanTables(1), Apply(s1, ScanTables(1)));
    RunStarts(r2, gap, delay);
    states, actions := r2.0, r2.1;
  }
}
