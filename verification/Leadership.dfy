/** Who accepts writes, over whole runs of the cluster. */
module Leadership {
  import opened Lists
  import opened Leaf
  import opened LeafFacts
  import opened Cluster

  /** The leader check of the write handler, at a node that is up. */
  predicate AcceptsWrites<V>(s: System<V>, i: int) {
    i in s.up && i in s.leaf && s.leaf[i].nodeId == s.leaf[i].currentLeaderId
  }

  /** Some node that is up lists some node that is up as dead. */
  ghost predicate Suspects<V>(s: System<V>) {
    exists i, j :: i in s.up && j in s.up && i in s.leaf && MarkedDead(s.leaf[i], j)
  }

  predicate MarkedDead<V>(l: LeafState<V>, j: int) {
    Registered(l.localNodes, j) && !Entry(l, j).isAlive
  }

  // ----- At most one leader -----

  /** A leader other than the initial one has outlived it and is the lowest node still up. */
  ghost predicate LeadersAreLowest<V>(s: System<V>, leader: int) {
    forall i, j :: AcceptsWrites(s, i) && i != leader && j in s.up ==> leader !in s.up && i <= j
  }

  /** At the moment of a promotion every unsuspected node shows as alive and the old leader as dead. */
  lemma PromotionIsJustified<V(!new)>(s: System<V>, i: int, leader: int)
    requires Static(s, leader) && i in s.up && !Suspects(s)
    requires !Suspects(Apply(s, ScanTables(i)))
    requires Scan(s.leaf[i], s.now).0.role != s.leaf[i].role
    ensures i != leader && leader !in s.up
    ensures forall j :: j in s.up ==> i <= j
  {
    hide Static, ScanFrom;
    LeaderIsMember(s, leader);
    var l := s.leaf[i];
    Member(s, leader, i);
    ScanEffect(l, s.now);
    var l' := Scan(l, s.now).0;
    var s' := Apply(s, ScanTables(i));
    assert s'.leaf[i] == l' && s'.up == s.up;
    var p :| PromotesAt(l, 0, p, s.now);
    var mid := Midway(l.localNodes, 0, p, i, s.now);
    LowestAliveIsLowest(mid, i);
    forall j | j in s.up
      ensures i <= j
    {
      var k := IndexOfNode(l.localNodes, j);
      assert Registered(l.localNodes, j);
      ScanEntries(l, s.now, j);
      assert !MarkedDead(l, j) && !MarkedDead(l', j);
      assert mid[k].isAlive;
    }
    assert IndexOfNode(l.localNodes, leader) == p by {
      assert Registered(l.localNodes, leader);
    }
    ScanEntries(l, s.now, leader);
    assert MarkedDead(l', leader);
  }

  /** Every other step of a node leaves its leader alone or hands leadership to another node. */
  lemma OnlyScansPromote<V(!new)>(s: System<V>, a: Action<V>, leader: int)
    requires Static(s, leader) && Enabled(s, a) && IsLocal(a) && !a.ScanTables?
    ensures Local(s, a).0.role == s.leaf[a.node].role
    ensures Local(s, a).0.currentLeaderId == s.leaf[a.node].currentLeaderId
            || (a.Deliver? && Queue(s.net, a.sender, a.node)[0].SelfPromotion?
                && Local(s, a).0.currentLeaderId == a.sender != a.node)
    ensures a.Deliver? && Queue(s.net, a.sender, a.node)[0].SelfPromotion? ==> Local(s, a).0.currentLeaderId == a.sender
  {
    hide Static;
    if a.Deliver? {
      InFlight(s, leader, a.sender, a.node, 0);
    }
  }

  lemma {:induction false} StepKeepsLeadersLowest<V(!new)>(s: System<V>, a: Action<V>, s': System<V>, leader: int)
    requires Static(s, leader) && Enabled(s, a) && s' == Apply(s, a) && LeadersAreLowest(s, leader)
    requires !Suspects(s) && !Suspects(s')
    ensures LeadersAreLowest(s', leader)
  {
    hide Static;
    hide Suspects;
    StepKeepsStatic(s, a, leader);
    forall i, j | AcceptsWrites(s', i) && i != leader && j in s'.up
      ensures leader !in s'.up && i <= j
    {
      Member(s, leader, i);
      if AcceptsWrites(s, i) {
        assert j in s.up;
      } else {
        assert IsLocal(a) && a.node == i;
        if a.ScanTables? {
          ScanEffect(s.leaf[i], s.now);
          PromotionIsJustified(s, i, leader);
        } else {
          OnlyScansPromote(s, a, leader);
        }
      }
    }
  }

  lemma InitialLeaderIsLowest<V(!new)>(s: System<V>, leader: int)
    requires Initial(s, leader)
    ensures LeadersAreLowest(s, leader)
  {
    forall i | AcceptsWrites(s, i)
      ensures i == leader
    {
      assert StaticLeaf(s.leaf[i], i, leader, s.leaf.Keys) && FreshLeaf(s.leaf[i], leader);
    }
  }

  /** As long as no live node has been marked dead by a live one, at most one live node accepts writes,
      whatever messages are lost or delayed and whoever crashes. */
  lemma {:induction false} LeadersStayLowest<V(!new)>(states: seq<System<V>>, actions: seq<Action<V>>, leader: int,
                                                      n: nat)
    requires IsRun(states, actions) && Initial(states[0], leader) && n < |states|
    requires forall k :: 0 <= k <= n ==> !Suspects(states[k])
    ensures LeadersAreLowest(states[n], leader)
    decreases n
  {
    hide Static, Initial, Suspects, LeadersAreLowest, Enabled, Apply;
    if n > 0 {
      LeadersStayLowest(states, actions, leader, n - 1);
      RunKeepsStatic(states, actions, leader, n - 1);
      StepKeepsLeadersLowest(states[n - 1], actions[n - 1], states[n], leader);
    } else {
      InitialLeaderIsLowest(states[0], leader);
    }
  }

  lemma TwoLeadersImplyAFalseSuspicion<V(!new)>(states: seq<System<V>>, actions: seq<Action<V>>, leader: int, n: nat,
                                                i: int, j: int)
    requires IsRun(states, actions) && Initial(states[0], leader) && n < |states|
    requires AcceptsWrites(states[n], i) && AcceptsWrites(states[n], j) && i != j
    ensures exists k :: 0 <= k <= n && Suspects(states[k])
  {
    if forall k :: 0 <= k <= n ==> !Suspects(states[k]) {
      LeadersStayLowest(states, actions, leader, n);
      assert false;
    }
  }

  // ----- The detector is accurate when heartbeats are timely -----

  /** Every live node sent heartbeats at most `gap` ms ago, and none of them is under way for more than `delay` ms. */
  ghost predicate Timely<V>(s: System<V>, gap: nat, delay: nat) {
    && (forall j :: j in s.up && j in s.lastSent ==> s.now - s.lastSent[j] <= gap)
    && forall i, j, k :: i in s.up && j in s.up && 0 <= k < |Queue(s.net, j, i)| && Queue(s.net, j, i)[k].HeartBeat? ==>
         s.now - Queue(s.net, j, i)[k].lastSeen <= delay
  }

  ghost predicate LosesHeartBeat<V>(s: System<V>, a: Action<V>) {
    a.Drop? && a.position < |Queue(s.net, a.sender, a.node)| && Queue(s.net, a.sender, a.node)[a.position].HeartBeat?
  }

  ghost predicate TimelyRun<V>(states: seq<System<V>>, actions: seq<Action<V>>, gap: nat, delay: nat) {
    && IsRun(states, actions)
    && (forall k :: 0 <= k < |states| ==> Timely(states[k], gap, delay))
    && forall k :: 0 <= k < |actions| ==> !LosesHeartBeat(states[k], actions[k])
  }

  function Stamps<V>(q: seq<Message<V>>): seq<int> {
    if q == [] then []
    else if Last(q).HeartBeat? then Stamps(Init(q)) + [Last(q).lastSeen]
    else Stamps(Init(q))
  }

  /** From `seen` through the stamps in flight to `sent` there is never more than `gap` ms between neighbours. */
  predicate Chain(seen: int, stamps: seq<int>, sent: int, gap: nat)
    decreases |stamps|
  {
    if stamps == [] then seen >= sent
    else stamps[0] - seen <= gap && Chain(stamps[0], stamps[1..], sent, gap)
  }

  lemma {:induction false} StampsConcat<V(!new)>(a: seq<Message<V>>, b: seq<Message<V>>)
    ensures Stamps(a + b) == Stamps(a) + Stamps(b)
  {
    if b == [] {
      assert a + b == a;
    } else {
      assert Init(a + b) == a + Init(b);
      StampsConcat(a, Init(b));
    }
  }

  lemma {:induction false} StampsAreInQueue<V(!new)>(q: seq<Message<V>>, i: nat)
    requires i < |Stamps(q)|
    ensures exists k :: 0 <= k < |q| && q[k].HeartBeat? && q[k].lastSeen == Stamps(q)[i]
  {
    if i == |Stamps(q)| - 1 && Last(q).HeartBeat? {
      assert q[|q| - 1].HeartBeat?;
    } else {
      StampsAreInQueue(Init(q), i);
      var k :| 0 <= k < |Init(q)| && Init(q)[k].HeartBeat? && Init(q)[k].lastSeen == Stamps(Init(q))[i];
      assert q[k] == Init(q)[k];
    }
  }

  lemma {:induction false} ChainAppend(seen: int, stamps: seq<int>, sent: int, next: int, gap: nat)
    requires Chain(seen, stamps, sent, gap) && next - sent <= gap
    ensures Chain(seen, stamps + [next], next, gap)
    decreases |stamps|
  {
    if stamps != [] {
      assert (stamps + [next])[1..] == stamps[1..] + [next];
      ChainAppend(stamps[0], stamps[1..], sent, next, gap);
    } else {
      assert ([] + [next])[1..] == [];
    }
  }

  /** The chain from what node i has seen of node j to what node j has sent. */
  ghost predicate Linked<V>(s: System<V>, i: int, j: int, gap: nat) {
    && i in s.leaf && j in s.lastSent && Registered(s.leaf[i].localNodes, j)
    && Entry(s.leaf[i], j).isAlive
    && (i != j ==> Chain(Entry(s.leaf[i], j).lastSeen, Stamps(Queue(s.net, j, i)), s.lastSent[j], gap))
  }

  ghost predicate Accurate<V>(s: System<V>, gap: nat) {
    forall i, j :: i in s.up && j in s.up ==> Linked(s, i, j, gap)
  }

  /** The detector's limit is never reached: 15000 ms cover one gap and one delay. */
  lemma SeenRecently<V(!new)>(s: System<V>, i: int, j: int, gap: nat, delay: nat)
    requires Timely(s, gap, delay) && Linked(s, i, j, gap) && i in s.up && j in s.up && i != j
    requires gap + delay <= HEARTBEAT_LIMIT
    ensures !Overdue(Entry(s.leaf[i], j), s.now)
  {
    var q := Queue(s.net, j, i);
    if Stamps(q) != [] {
      StampsAreInQueue(q, 0);
    }
  }

  // Which stamps a step adds to and takes from a link.

  lemma {:induction false} PeersGetOneMessage<V(!new)>(nodes: seq<Descriptor>, self: int, m: Message<V>, t: int)
    requires DistinctIds(nodes) && t != self
    ensures Addressed(ToPeers(nodes, self, m), t) == if Registered(nodes, t) then [m] else []
  {
    if nodes == [] {
    } else {
      var rest, d := Init(nodes), Last(nodes);
      PeersGetOneMessage(rest, self, m, t);
      AddressedConcat(ToPeers(rest, self, m), if d.nodeId != self then [Send(d.nodeId, m)] else [], t);
      var i := IndexOfNode(nodes, t);
      assert i < |rest| ==> rest[i].nodeId == t;
      assert IndexOfNode(rest, t) < |rest| ==> nodes[IndexOfNode(rest, t)].nodeId == t;
    }
  }

  lemma {:induction false} AddressedConcat<V(!new)>(a: seq<Send<V>>, b: seq<Send<V>>, t: int)
    ensures Addressed(a + b, t) == Addressed(a, t) + Addressed(b, t)
  {
    if b == [] {
      assert a + b == a;
    } else {
      assert Init(a + b) == a + Init(b);
      AddressedConcat(a, Init(b), t);
    }
  }

  lemma {:induction false} NoStamps<V(!new)>(q: seq<Message<V>>)
    requires forall m :: m in q ==> !m.HeartBeat?
    ensures Stamps(q) == []
  {
    if q == [] {
    } else {
      NoStamps(Init(q));
    }
  }

  lemma OnlyBeatsSendHeartBeats<V(!new)>(s: System<V>, a: Action<V>, leader: int, t: int)
    requires Static(s, leader) && IsLocal(a) && Enabled(s, a) && t != a.node && t in s.leaf
    ensures Stamps(Addressed(Local(s, a).1, t)) == if a.Beat? then [s.now] else []
  {
    hide Static, Scan;
    var l := s.leaf[a.node];
    Member(s, leader, a.node);
    var sends := Local(s, a).1;
    if a.Beat? {
      var m: Message<V> := HeartBeat(l.nodeId, s.now, a.clusterType);
      assert sends == ToPeers(l.localNodes, l.nodeId, m);
      PeersGetOneMessage(l.localNodes, l.nodeId, m, t);
      assert Stamps([m]) == Stamps(Init([m])) + [s.now];
    } else {
      AddressedIsSent(sends, t);
      if a.ScanTables? {
        SentByScan(l, s.now);
      } else if a.Write? {
        ToLivePeersReaches<V>(l.localNodes, l.nodeId, Push(l.nodeId, s.now, a.key, a.value));
      }
      NoStamps(Addressed(sends, t));
    }
  }

  lemma StampsWithoutOther<V(!new)>(q: seq<Message<V>>, i: nat)
    requires i < |q| && !q[i].HeartBeat?
    ensures Stamps(q[..i] + q[i + 1..]) == Stamps(q)
  {
    assert q == q[..i] + [q[i]] + q[i + 1..];
    StampsConcat(q[..i] + [q[i]], q[i + 1..]);
    StampsConcat(q[..i], [q[i]]);
    StampsConcat(q[..i], q[i + 1..]);
    NoStamps([q[i]]);
  }

  lemma StampsOfFirst<V(!new)>(q: seq<Message<V>>)
    requires q != []
    ensures Stamps(q) == (if q[0].HeartBeat? then [q[0].lastSeen] else []) + Stamps(q[1..])
  {
    assert q == [q[0]] + q[1..];
    StampsConcat([q[0]], q[1..]);
    assert Init([q[0]]) == [];
  }

  /** The stamps on a link after a step. */
  lemma StampsAfter<V(!new)>(s: System<V>, a: Action<V>, leader: int, j: int, i: int)
    requires Static(s, leader) && Enabled(s, a) && i != j && i in s.leaf
    requires LosesHeartBeat(s, a) ==> a.sender != j || a.node != i
    ensures var before, after := Stamps(Queue(s.net, j, i)), Stamps(Queue(Apply(s, a).net, j, i));
            if a.Beat? && a.node == j then after == before + [s.now]
            else if a.Deliver? && a.sender == j && a.node == i && Queue(s.net, j, i)[0].HeartBeat? then
              before != [] && Queue(s.net, j, i)[0].lastSeen == before[0] && after == before[1..]
            else after == before
  {
    hide Static;
    QueueAfter(s, a, j, i);
    var q := Queue(s.net, j, i);
    if IsLocal(a) && a.node == j {
      OnlyBeatsSendHeartBeats(s, a, leader, i);
      StampsConcat(q, Addressed(Local(s, a).1, i));
    } else if a.Deliver? && a.sender == j && a.node == i {
      StampsOfFirst(q);
      assert q[1..] + [] == q[1..];
    } else if a.Drop? && a.sender == j && a.node == i {
      StampsWithoutOther(q, a.position);
      assert q[..a.position] + q[a.position + 1..] + [] == q[..a.position] + q[a.position + 1..];
    } else {
      assert q + [] == q;
    }
  }

  /** The entry of j at i after a step: a delivered heartbeat of j refreshes it, a scan marks it, and nothing else
      changes it. */
  function EntryThen<V>(s: System<V>, a: Action<V>, i: int, j: int): Descriptor
    requires i in s.leaf && Registered(s.leaf[i].localNodes, j)
  {
    var before := Entry(s.leaf[i], j);
    if a.ScanTables? && a.node == i then ScanEntry(before, i, s.now)
    else if a.Deliver? && a.sender == j && a.node == i && Queue(s.net, j, i) != [] && Queue(s.net, j, i)[0].HeartBeat?
    then Seen(before, Queue(s.net, j, i)[0].lastSeen)
    else before
  }

  lemma LocalEntry<V(!new)>(s: System<V>, a: Action<V>, leader: int, i: int, j: int)
    requires Static(s, leader) && Enabled(s, a) && IsLocal(a) && a.node == i && j in s.leaf
    requires Registered(s.leaf[i].localNodes, j) && Registered(Local(s, a).0.localNodes, j)
    ensures Entry(Local(s, a).0, j) == EntryThen(s, a, i, j)
  {
    hide Static, Scan;
    var l := s.leaf[i];
    Member(s, leader, i);
    match a
    case ScanTables(_) => ScanEntries(l, s.now, j);
    case Deliver(f, _, _) =>
      var m := Queue(s.net, f, i)[0];
      InFlight(s, leader, f, i, 0);
      if m.HeartBeat? {
        HeartBeatEffect(l, m.nodeId, m.lastSeen, m.clusterType, s.now);
      }
    case _ =>
  }

  lemma EntryAfter<V(!new)>(s: System<V>, a: Action<V>, leader: int, i: int, j: int)
    requires Static(s, leader) && Enabled(s, a) && i in s.leaf && j in s.leaf
    ensures i in Apply(s, a).leaf && Registered(s.leaf[i].localNodes, j)
            && Registered(Apply(s, a).leaf[i].localNodes, j)
    ensures Entry(Apply(s, a).leaf[i], j) == EntryThen(s, a, i, j)
  {
    hide Static;
    StepKeepsStatic(s, a, leader);
    Member(s, leader, i);
    Member(Apply(s, a), leader, i);
    if IsLocal(a) && a.node == i {
      LocalEntry(s, a, leader, i, j);
    }
  }

  lemma StepKeepsLink<V(!new)>(s: System<V>, a: Action<V>, s': System<V>, leader: int, i: int, j: int, gap: nat,
                               delay: nat)
    requires Static(s, leader) && Enabled(s, a) && s' == Apply(s, a) && !LosesHeartBeat(s, a)
    requires Timely(s, gap, delay) && gap + delay <= HEARTBEAT_LIMIT
    requires Linked(s, i, j, gap) && i in s.up && j in s.up
    ensures Linked(s', i, j, gap)
  {
    hide Static, Local, Stamps, Dispatch, Consumed;
    LeaderIsMember(s, leader);
    EntryAfter(s, a, leader, i, j);
    if i != j {
      StampsAfter(s, a, leader, j, i);
      SeenRecently(s, i, j, gap, delay);
      if a.Beat? && a.node == j {
        ChainAppend(Entry(s.leaf[i], j).lastSeen, Stamps(Queue(s.net, j, i)), s.lastSent[j], s.now, gap);
      }
    }
  }

  lemma {:induction false} TimelyRunIsAccurate<V(!new)>(states: seq<System<V>>, actions: seq<Action<V>>, leader: int,
                                                        gap: nat, delay: nat, n: nat)
    requires TimelyRun(states, actions, gap, delay) && gap + delay <= HEARTBEAT_LIMIT
    requires Initial(states[0], leader) && n < |states|
    ensures Accurate(states[n], gap)
    decreases n
  {
    hide Static, Initial, Linked;
    RunKeepsStatic(states, actions, leader, n);
    if n == 0 {
      InitialIsAccurate(states[0], leader, gap);
    } else {
      TimelyRunIsAccurate(states, actions, leader, gap, delay, n - 1);
      RunKeepsStatic(states, actions, leader, n - 1);
      var s, a := states[n - 1], actions[n - 1];
      forall i, j | i in states[n].up && j in states[n].up
        ensures Linked(states[n], i, j, gap)
      {
        assert i in s.up && j in s.up;
        StepKeepsLink(s, a, states[n], leader, i, j, gap, delay);
      }
    }
  }

  lemma InitialIsAccurate<V(!new)>(s: System<V>, leader: int, gap: nat)
    requires Initial(s, leader)
    ensures Accurate(s, gap)
  {
    forall i, j | i in s.up && j in s.up
      ensures Linked(s, i, j, gap)
    {
      assert StaticLeaf(s.leaf[i], i, leader, s.leaf.Keys);
      assert Queue(s.net, j, i) == [];
    }
  }

  /** With timely heartbeats no live node is ever marked dead by a live node. */
  lemma NoFalseSuspicion<V(!new)>(states: seq<System<V>>, actions: seq<Action<V>>, leader: int, gap: nat, delay: nat,
                                  n: nat)
    requires TimelyRun(states, actions, gap, delay) && gap + delay <= HEARTBEAT_LIMIT
    requires Initial(states[0], leader) && n < |states|
    ensures !Suspects(states[n])
  {
    TimelyRunIsAccurate(states, actions, leader, gap, delay, n);
    var s := states[n];
    forall i, j | i in s.up && j in s.up && i in s.leaf
      ensures !MarkedDead(s.leaf[i], j)
    {
      assert Linked(s, i, j, gap);
    }
  }

  /** Timely heartbeats leave at most one live node accepting writes, in every state of every run. */
  lemma AtMostOneLeader<V(!new)>(states: seq<System<V>>, actions: seq<Action<V>>, leader: int, gap: nat, delay: nat,
                                 n: nat, i: int, j: int)
    requires TimelyRun(states, actions, gap, delay) && gap + delay <= 15000
    requires Initial(states[0], leader) && n < |states|
    requires AcceptsWrites(states[n], i) && AcceptsWrites(states[n], j)
    ensures i == j
  {
    forall k | 0 <= k <= n
      ensures !Suspects(states[k])
    {
      NoFalseSuspicion(states, actions, leader, gap, delay, k);
    }
    LeadersStayLowest(states, actions, leader, n);
  }
}
