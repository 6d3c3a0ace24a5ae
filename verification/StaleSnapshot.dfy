/** Values can roll back exactly where a push overtakes a snapshot that holds its key, and that can happen. */
module StaleSnapshot {
  import opened Lists
  import opened Lru
  import opened LruStore
  import opened Leaf
  import opened LeafFacts
  import opened Cluster
  import opened Leadership
  import opened Replication
  import opened NoRollback
  import opened SplitSnapshot
  import opened TimingBound

  /** The steps, one after the other, lead from s to s'. */
  ghost predicate Leads<V>(s: Split<V>, actions: seq<SplitAction<V>>, s': Split<V>)
    decreases |actions|
  {
    if actions == [] then s' == s
    else SplitEnabled(s, actions[0]) && Leads(SplitApply(s, actions[0]), actions[1..], s')
  }

  lemma OneStepLeads<V>(s: Split<V>, a: SplitAction<V>)
    requires SplitEnabled(s, a)
    ensures Leads(s, [a], SplitApply(s, a))
  {
  }

  lemma {:induction false} LeadsOn<V>(s: Split<V>, a: seq<SplitAction<V>>, mid: Split<V>, b: seq<SplitAction<V>>,
                                      s': Split<V>)
    requires Leads(s, a, mid) && Leads(mid, b, s')
    ensures Leads(s, a + b, s')
    decreases |a|
  {
    if a == [] {
      assert a + b == b;
    } else {
      assert (a + b)[0] == a[0] && (a + b)[1..] == a[1..] + b;
      LeadsOn(SplitApply(s, a[0]), a[1..], mid, b, s');
    }
  }

  ghost predicate Has<V>(s: Split<V>, f: int, k: string, v: V) {
    Holds(s.sys, f, k) && s.sys.leaf[f].store.kv[k] == v
  }

  // ----- Steps on the link to the follower -----

  /** Everything but the links to f, and what the leader keeps, is as before. */
  ghost predicate SameFollower<V>(s: Split<V>, s': Split<V>, f: int) {
    && s'.sys.up == s.sys.up && s'.held == s.held && f in s.sys.leaf && f in s'.sys.leaf
       && s'.sys.leaf[f] == s.sys.leaf[f]
  }

  /** What is in front on a link can be lost. */
  lemma {:induction false} FrontIsLost<V(!new)>(s: Split<V>, i: int, f: int, n: nat)
    returns (actions: seq<SplitAction<V>>, s': Split<V>)
    requires n <= |Queue(s.sys.net, i, f)| && f in s.sys.leaf
    ensures Leads(s, actions, s') && AllPassive(actions)
    ensures SameFollower(s, s', f) && Queue(s'.sys.net, i, f) == Queue(s.sys.net, i, f)[n..]
    decreases n
  {
    if n == 0 {
      actions, s' := [], s;
    } else {
      var a: SplitAction<V> := Do(Drop(i, f, 0));
      var q := Queue(s.sys.net, i, f);
      var t := SplitApply(s, a);
      assert Queue(t.sys.net, i, f) == q[..0] + q[1..] == q[1..];
      assert q[1..][n - 1..] == q[n..];
      OneStepLeads(s, a);
      var rest;
      rest, s' := FrontIsLost(t, i, f, n - 1);
      LeadsOn(s, [a], t, rest, s');
      actions := [a] + rest;
    }
  }

  lemma LeaderTable<V(!new)>(s: Split<V>, leader: int)
    requires SplitOrderly(s, leader)
    ensures leader in s.sys.leaf && DistinctIds(s.sys.leaf[leader].localNodes) && s.sys.leaf[leader].nodeId == leader
  {
    Member(s.sys, leader, leader);
  }

  /** The write puts its push at the end of the link. */
  lemma WritePushes<V(!new)>(s: Split<V>, leader: int, f: int, k: string, v: V) returns (s': Split<V>)
    requires SplitOrderly(s, leader) && f in s.sys.leaf && f != leader
             && Overtakes(s, Do(Write(leader, k, v, false)), leader, f, k)
    ensures SplitEnabled(s, Do(Write(leader, k, v, false))) && s' == SplitApply(s, Do(Write(leader, k, v, false)))
    ensures SameFollower(s, s', f)
    ensures Queue(s'.sys.net, leader, f) == Queue(s.sys.net, leader, f) + [Push(leader, s.sys.now, k, v)]
  {
    hide SplitOrderly, StaticLeaves, SomeAlive, DistinctIds, Addressed, ToLivePeers, Dispatch, Insert;
    var a: Action<V> := Write(leader, k, v, false);
    s' := SplitApply(s, Do(a));
    LeaderTable(s, leader);
    QueueAfter(s.sys, a, leader, f);
    LivePeersGetOneMessage<V>(s.sys.leaf[leader].localNodes, leader, Push(leader, s.sys.now, k, v), f);
  }

  /** The only message on a link is delivered. */
  lemma PushArrives<V(!new)>(s: Split<V>, leader: int, f: int, at: int, k: string, v: V) returns (s': Split<V>)
    requires f in s.sys.up && f in s.sys.leaf && f !in s.held && f != leader
    requires Queue(s.sys.net, leader, f) == [Push(leader, at, k, v)]
    ensures SplitEnabled(s, Do(Deliver(leader, f, []))) && s' == SplitApply(s, Do(Deliver(leader, f, [])))
    ensures Has(s', f, k, v) && s'.held == s.held && s'.sys.up == s.sys.up && Queue(s'.sys.net, leader, f) == []
    ensures s'.sys.leaf[f].store == Insert(s.sys.leaf[f].store, k, v)
  {
    assert Keys<V>([]) == [];
    s' := SplitApply(s, Do(Deliver(leader, f, [])));
    QueueAfter(s.sys, Deliver(leader, f, []), leader, f);
    assert Queue(s'.sys.net, leader, f) == [];
  }

  lemma SnapshotArrives<V(!new)>(s: Split<V>, leader: int, f: int, k: string, m: Message<V>)
    returns (a: SplitAction<V>, s': Split<V>)
    requires f in s.sys.up && f in s.sys.leaf && f !in s.held && f != leader
    requires Queue(s.sys.net, leader, f) == [m] && m.SyncResponse? && Offer(m, k).Some?
    ensures SplitEnabled(s, a) && Passive(a) && s' == SplitApply(s, a) && Has(s', f, k, Offer(m, k).value)
  {
    hide PayloadMap, Insert, Enumerates;
    var order := EnumeratedLast(PayloadMap(m.payload), k);
    a := Do(Deliver(leader, f, order));
    s' := SplitApply(s, a);
    LoadedLast(s.sys.leaf[f].store, order);
  }

  lemma LoadedLast<V>(c: Cache<V>, order: seq<(string, V)>)
    requires order != []
    ensures Last(order).0 in Load(c, order).kv && Load(c, order).kv[Last(order).0] == Last(order).1
  {
  }

  // ----- The rollback -----

  /** Neither a client write nor a scan, which could change the leader. */
  predicate Passive<V>(a: SplitAction<V>) {
    !(a.Do? && (a.action.Write? || a.action.ScanTables?))
  }

  predicate AllPassive<V>(actions: seq<SplitAction<V>>) {
    forall i :: 0 <= i < |actions| ==> Passive(actions[i])
  }

  /** Some steps that write nothing lead to follower f having the value `newer` for k, and further ones to it
      having `older`. */
  ghost predicate CanRollBack<V(!new)>(s: Split<V>, f: int, k: string, newer: V, older: V) {
    exists first, mid, second, end :: RollsBack(s, first, mid, second, end, f, k, newer, older)
  }

  ghost predicate RollsBack<V>(s: Split<V>, first: seq<SplitAction<V>>, mid: Split<V>, second: seq<SplitAction<V>>,
                               end: Split<V>, f: int, k: string, newer: V, older: V) {
    && Leads(s, first, mid) && Has(mid, f, k, newer) && AllPassive(first)
    && Leads(mid, second, end) && Has(end, f, k, older) && AllPassive(second)
  }

  lemma StepsBefore<V(!new)>(s: Split<V>, actions: seq<SplitAction<V>>, t: Split<V>, f: int, k: string, newer: V,
                             older: V)
    requires Leads(s, actions, t) && AllPassive(actions) && CanRollBack(t, f, k, newer, older)
    ensures CanRollBack(s, f, k, newer, older)
  {
    hide Leads, Has;
    var first, mid, second, end :| RollsBack(t, first, mid, second, end, f, k, newer, older);
    LeadsOn(s, actions, t, first, mid);
    assert RollsBack(s, actions + first, mid, second, end, f, k, newer, older);
  }

  lemma SnapshotIsSent<V(!new)>(s: Split<V>, leader: int, f: int) returns (s': Split<V>)
    requires leader in s.held && leader in s.sys.up && s.held[leader].destination == f
             && Queue(s.sys.net, leader, f) == []
    ensures SplitEnabled(s, SendSnapshot(leader)) && s' == SplitApply(s, SendSnapshot(leader))
    ensures Queue(s'.sys.net, leader, f) == [s.held[leader].message]
    ensures s'.sys.leaf == s.sys.leaf && s'.sys.up == s.sys.up && s'.held == s.held - {leader}
  {
    s' := SplitApply(s, SendSnapshot(leader));
    LinksAfterSend(s, leader, leader, f);
  }

  /** With the push alone on the link and the snapshot still held, both arrive, the snapshot last. */
  lemma NewerThenOlder<V(!new)>(s: Split<V>, leader: int, f: int, at: int, k: string, v: V, m: Message<V>)
    requires leader in s.sys.up && f in s.sys.up && f in s.sys.leaf && f !in s.held && f != leader
    requires Queue(s.sys.net, leader, f) == [Push(leader, at, k, v)]
    requires leader in s.held && s.held[leader] == Send(f, m) && m.SyncResponse? && Offer(m, k).Some?
    ensures CanRollBack(s, f, k, v, Offer(m, k).value)
  {
    hide SplitEnabled, SplitApply, Leads, Offer;
    var mid := PushArrives(s, leader, f, at, k, v);
    var sent := SnapshotIsSent(mid, leader, f);
    var d, end := SnapshotArrives(sent, leader, f, k, m);
    OneStepLeads(s, Do(Deliver(leader, f, [])));
    OneStepLeads(mid, SendSnapshot(leader));
    OneStepLeads(sent, d);
    LeadsOn(mid, [SendSnapshot(leader)], sent, [d], end);
    assert RollsBack(s, [Do(Deliver(leader, f, []))], mid, [SendSnapshot(leader)] + [d], end, f, k, v,
           Offer(m, k).value);
  }

  /** Whenever a push of k overtakes a snapshot for f that holds k, the follower can roll back from the new
      value to the one in the snapshot. */
  lemma OvertakingRollsBack<V(!new)>(s: Split<V>, leader: int, f: int, k: string, v: V)
    requires SplitOrderly(s, leader) && leader in s.sys.up && f in s.sys.up && f in s.sys.leaf && f != leader
    requires Overtakes(s, Do(Write(leader, k, v, false)), leader, f, k)
    ensures var push := Do(Write(leader, k, v, false));
            SplitEnabled(s, push) && CanRollBack(SplitApply(s, push), f, k, v, Offer(s.held[leader].message, k).value)
  {
    assert f !in s.held && s.held[leader].message.SyncResponse?;
    hide SplitOrderly, SplitEnabled, SplitApply, Leads, Offer, CanRollBack;
    var m, q := s.held[leader].message, Queue(s.sys.net, leader, f);
    var a := WritePushes(s, leader, f, k, v);
    var drops, c := FrontIsLost(a, leader, f, |q|);
    assert Queue(c.sys.net, leader, f) == [Push(leader, s.sys.now, k, v)];
    NewerThenOlder(c, leader, f, s.sys.now, k, v, m);
    StepsBefore(a, drops, c, f, k, v, Offer(m, k).value);
  }

  // ----- The exact condition -----

  /** A step that leaves the leader in place, lets no push of k overtake a snapshot that holds it, and writes
      no value of lower rank than the latest, which w gives. */
  ghost predicate Calm<V>(s: Split<V>, w: map<string, V>, a: SplitAction<V>, leader: int, f: int, k: string,
                          rank: Rank<V>) {
    && SplitEnabled(s, a) && OneLeader(SplitApply(s, a).sys, leader) && !Overtakes(s, a, leader, f, k)
    && var b := Core(a); AcceptedWrite(s.sys, b) && b.key in w ==> rank(b.key, w[b.key]) <= rank(b.key, b.value)
  }

  ghost predicate CalmlyLeads<V>(s: Split<V>, w: map<string, V>, actions: seq<SplitAction<V>>, s': Split<V>,
                                 w': map<string, V>, leader: int, f: int, k: string, rank: Rank<V>)
    decreases |actions|
  {
    if actions == [] then s' == s && w' == w
    else
      && Calm(s, w, actions[0], leader, f, k, rank)
      && CalmlyLeads(SplitApply(s, actions[0]), WrittenThen(w, s.sys, Core(actions[0])), actions[1..], s', w',
                     leader, f, k, rank)
  }

  /** Calm steps lead to the follower having one value of k, and further ones to it having one of lower rank. */
  ghost predicate CanFallBack<V(!new)>(s: Split<V>, w: map<string, V>, leader: int, f: int, k: string, rank: Rank<V>) {
    exists first, mid, w1, second, end, w2 :: FallsBack(s, w, first, mid, w1, second, end, w2, leader, f, k, rank)
  }

  ghost predicate FallsBack<V>(s: Split<V>, w: map<string, V>, first: seq<SplitAction<V>>, mid: Split<V>,
                               w1: map<string, V>, second: seq<SplitAction<V>>, end: Split<V>, w2: map<string, V>,
                               leader: int, f: int, k: string, rank: Rank<V>) {
    && CalmlyLeads(s, w, first, mid, w1, leader, f, k, rank)
       && CalmlyLeads(mid, w1, second, end, w2, leader, f, k, rank)
    && Holds(mid.sys, f, k) && Holds(end.sys, f, k)
    && rank(k, mid.sys.leaf[f].store.kv[k]) > rank(k, end.sys.leaf[f].store.kv[k])
  }

  /** What every state of a run is in as long as nothing has overtaken a snapshot. */
  ghost predicate Settled<V(!new)>(s: Split<V>, w: map<string, V>, leader: int, f: int, k: string, rank: Rank<V>) {
    && SplitOrderly(s, leader) && LeaderIsLatest(s.sys, leader, w) && f in s.sys.leaf && f != leader
    && Rising(HeldRank(s.sys.leaf[f].store, k, rank), Coming(s, leader, f), k, w, rank)
  }

  lemma CalmStepSettles<V(!new)>(s: Split<V>, w: map<string, V>, a: SplitAction<V>, leader: int, f: int, k: string,
                                 rank: Rank<V>)
    requires Settled(s, w, leader, f, k, rank) && Calm(s, w, a, leader, f, k, rank)
    ensures Settled(SplitApply(s, a), WrittenThen(w, s.sys, Core(a)), leader, f, k, rank)
  {
    hide SplitOrderly, SplitEnabled, SplitApply, Rising, Coming, Overtakes, AcceptedWrite, LeaderIsLatest, OneLeader;
    SplitStepKeepsOrderly(s, a, SplitApply(s, a), leader, w);
    StepFromHeld(s, a, SplitApply(s, a), leader, f, k, w, rank);
  }

  lemma {:induction false} CalmlySettled<V(!new)>(s: Split<V>, w: map<string, V>, actions: seq<SplitAction<V>>,
                                                  s': Split<V>, w': map<string, V>, leader: int, f: int, k: string,
                                                  rank: Rank<V>)
    requires Settled(s, w, leader, f, k, rank) && CalmlyLeads(s, w, actions, s', w', leader, f, k, rank)
    ensures Settled(s', w', leader, f, k, rank)
    decreases |actions|
  {
    hide Settled, SplitApply, SplitEnabled, Overtakes, AcceptedWrite, OneLeader;
    if actions == [] {
    } else {
      CalmStepSettles(s, w, actions[0], leader, f, k, rank);
      CalmlySettled(SplitApply(s, actions[0]), WrittenThen(w, s.sys, Core(actions[0])), actions[1..], s', w',
                    leader, f, k, rank);
    }
  }

  lemma {:induction false} CalmlyAbove<V(!new)>(s: Split<V>, w: map<string, V>, actions: seq<SplitAction<V>>,
                                                s': Split<V>, w': map<string, V>, leader: int, f: int, k: string,
                                                rank: Rank<V>, lo: Option<int>)
    requires Settled(s, w, leader, f, k, rank) && CalmlyLeads(s, w, actions, s', w', leader, f, k, rank)
    requires ComesAbove(s, leader, f, lo, k, w, rank)
    ensures ComesAbove(s', leader, f, lo, k, w', rank)
    decreases |actions|
  {
    hide SplitOrderly, SplitEnabled, SplitApply, Rising, Coming, Overtakes, AcceptedWrite, LeaderIsLatest, OneLeader,
         ComesAbove;
    if actions == [] {
    } else {
      var a := actions[0];
      CalmStepSettles(s, w, a, leader, f, k, rank);
      StepComesAbove(s, a, SplitApply(s, a), leader, f, lo, k, w, rank);
      CalmlyAbove(SplitApply(s, a), WrittenThen(w, s.sys, Core(a)), actions[1..], s', w', leader, f, k, rank, lo);
    }
  }

  /** From a settled state on, calm steps never lower the follower's value. */
  lemma SettledNeverFallsBack<V(!new)>(s: Split<V>, w: map<string, V>, leader: int, f: int, k: string, rank: Rank<V>)
    requires Settled(s, w, leader, f, k, rank)
    ensures !CanFallBack(s, w, leader, f, k, rank)
  {
    hide SplitOrderly, Rising, Coming, CalmlyLeads, LeaderIsLatest;
    forall first, mid, w1, second, end, w2 | CalmlyLeads(s, w, first, mid, w1, leader, f, k, rank)
                                             && CalmlyLeads(mid, w1, second, end, w2, leader, f, k, rank)
      ensures !FallsBack(s, w, first, mid, w1, second, end, w2, leader, f, k, rank)
    {
      CalmlySettled(s, w, first, mid, w1, leader, f, k, rank);
      HeldIsAtLeast(mid.sys.leaf[f].store, k, rank);
      CalmlyAbove(mid, w1, second, end, w2, leader, f, k, rank, HeldRank(mid.sys.leaf[f].store, k, rank));
    }
  }

  /** Passive steps are calm. */
  lemma PassiveStep<V(!new)>(s: Split<V>, w: map<string, V>, a: SplitAction<V>, leader: int)
    requires SplitOrderly(s, leader) && SplitEnabled(s, a) && Passive(a)
    ensures OneLeader(SplitApply(s, a).sys, leader) && !AcceptedWrite(s.sys, Core(a))
  {
    OrderlyFacts(s.sys, leader);
    match a
    case Do(b) =>
      if IsLocal(b) {
        OnlyScansPromote(s.sys, b, leader);
        if b.Deliver? {
          assert Queue(s.sys.net, b.sender, b.node)[0] in Queue(s.sys.net, b.sender, b.node);
          assert OneWay(Queue(s.sys.net, b.sender, b.node)[0], b.sender, b.node, leader);
        }
      }
    case ReadSnapshot(f, t, order) => DropIsEnabled(s.sys, f, t);
    case SendSnapshot(t) =>
  }

  lemma {:induction false} PassivelyIsCalmly<V(!new)>(s: Split<V>, w: map<string, V>, actions: seq<SplitAction<V>>,
                                                      s': Split<V>, leader: int, f: int, k: string, rank: Rank<V>)
    requires SplitOrderly(s, leader) && LeaderIsLatest(s.sys, leader, w) && Leads(s, actions, s') && AllPassive(actions)
    ensures CalmlyLeads(s, w, actions, s', w, leader, f, k, rank)
    ensures SplitOrderly(s', leader) && LeaderIsLatest(s'.sys, leader, w)
    decreases |actions|
  {
    hide SplitOrderly, SplitEnabled, SplitApply, AcceptedWrite, LeaderIsLatest, OneLeader;
    if actions == [] {
    } else {
      var a := actions[0];
      PassiveStep(s, w, a, leader);
      SplitStepKeepsOrderly(s, a, SplitApply(s, a), leader, w);
      PassivelyIsCalmly(SplitApply(s, a), w, actions[1..], s', leader, f, k, rank);
    }
  }

  /** What comes last has no higher rank than the latest written value. */
  lemma {:induction false} LastIsNotAbove<V>(lo: Option<int>, d: seq<Message<V>>, m: Message<V>, k: string,
                                             w: map<string, V>, rank: Rank<V>)
    requires Rising(lo, d + [m], k, w, rank) && Offer(m, k).Some?
    ensures k in w && rank(k, Offer(m, k).value) <= rank(k, w[k])
    decreases |d|
  {
    if d == [] {
      assert ([] + [m])[1..] == [];
    } else {
      assert (d + [m])[1..] == d[1..] + [m];
      match Offer(d[0], k)
      case None => LastIsNotAbove(lo, d[1..], m, k, w, rank);
      case Some(v) => LastIsNotAbove(Some(rank(k, v)), d[1..], m, k, w, rank);
    }
  }

  lemma WriteKeepsLeader<V(!new)>(s: Split<V>, b: Action<V>, leader: int)
    requires SplitOrderly(s, leader) && AcceptedWrite(s.sys, b)
    ensures SplitEnabled(s, Do(b)) && OneLeader(SplitApply(s, Do(b)).sys, leader) && b.node == leader
  {
    LeaderOf(s.sys, b.node, leader);
  }

  lemma RollbackFallsBack<V(!new)>(s: Split<V>, w: map<string, V>, leader: int, f: int, k: string, rank: Rank<V>,
                                   newer: V, older: V)
    requires SplitOrderly(s, leader) && LeaderIsLatest(s.sys, leader, w) && CanRollBack(s, f, k, newer, older)
    requires rank(k, newer) > rank(k, older)
    ensures CanFallBack(s, w, leader, f, k, rank)
  {
    hide SplitOrderly, LeaderIsLatest, Leads, CalmlyLeads;
    var first, mid, second, end :| RollsBack(s, first, mid, second, end, f, k, newer, older);
    PassivelyIsCalmly(s, w, first, mid, leader, f, k, rank);
    PassivelyIsCalmly(mid, w, second, end, leader, f, k, rank);
    assert FallsBack(s, w, first, mid, w, second, end, w, leader, f, k, rank);
  }

  /** In a state that is settled, an accepted write of a value of higher rank lets the follower fall back later,
      by calm steps, exactly if its push overtakes a snapshot that holds the key. */
  lemma SettledFallsBackIff<V(!new)>(s: Split<V>, w: map<string, V>, leader: int, f: int, k: string, rank: Rank<V>,
                                     v: V)
    requires Settled(s, w, leader, f, k, rank) && f in s.sys.up
    requires AcceptedWrite(s.sys, Write(leader, k, v, false)) && (k in w ==> rank(k, w[k]) < rank(k, v))
    ensures var push := Do(Write(leader, k, v, false));
            SplitEnabled(s, push) &&
            (CanFallBack(SplitApply(s, push), w[k := v], leader, f, k, rank) <==> Overtakes(s, push, leader, f, k))
  {
    hide SplitOrderly, Rising, LeaderIsLatest, CanFallBack, OneLeader, SplitEnabled, SplitApply, CanRollBack, Data;
    var b: Action<V> := Write(leader, k, v, false);
    var push, m := Do(b), if Holding(s, leader, f) then [s.held[leader].message] else [];
    WriteKeepsLeader(s, b, leader);
    SplitStepKeepsOrderly(s, push, SplitApply(s, push), leader, w);
    if Overtakes(s, push, leader, f, k) {
      LastIsNotAbove(HeldRank(s.sys.leaf[f].store, k, rank), Data(Queue(s.sys.net, leader, f)), m[0], k, w, rank);
      OvertakingRollsBack(s, leader, f, k, v);
      RollbackFallsBack(SplitApply(s, push), w[k := v], leader, f, k, rank, v, Offer(m[0], k).value);
    } else {
      CalmStepSettles(s, w, push, leader, f, k, rank);
      SettledNeverFallsBack(SplitApply(s, push), w[k := v], leader, f, k, rank);
    }
  }

  /** In every state of a run in which nothing has overtaken a snapshot, the next accepted write of a value of
      higher rank lets a follower fall back later, with nothing further overtaking, exactly if its own push
      overtakes a snapshot that holds the key. */
  lemma RollbackIffOvertaken<V(!new)>(states: seq<Split<V>>, actions: seq<SplitAction<V>>, leader: int, rank: Rank<V>,
                                      f: int, k: string, n: nat, v: V)
    requires OneLeaderSplitRun(states, actions, leader) && NothingOvertakes(states, actions, leader, f, k)
    requires RisingWrites(Systems(states), Cores(actions), rank)
    requires n < |states| && f in states[0].sys.leaf && f != leader && f in states[n].sys.up
    requires AcceptedWrite(states[n].sys, Write(leader, k, v, false))
    requires var w := Written(Systems(states), Cores(actions), n); k in w ==> rank(k, w[k]) < rank(k, v)
    ensures var s, w, push := states[n], Written(Systems(states), Cores(actions), n), Do(Write(leader, k, v, false));
            SplitEnabled(s, push) &&
            (CanFallBack(SplitApply(s, push), w[k := v], leader, f, k, rank) <==> Overtakes(s, push, leader, f, k))
  {
    hide Initial, OneLeader, NothingOvertakes, SplitOrderly, RisingWrites, Rising, Coming, LeaderIsLatest, Overtakes,
         CanFallBack, SplitEnabled, SplitApply, Written;
    SplitRunRises(states, actions, leader, rank, f, k, n);
    SettledFallsBackIff(states[n], Written(Systems(states), Cores(actions), n), leader, f, k, rank, v);
  }

  // ----- Such a state can be reached -----

  const FIRST_WRITE: Action<int> := Write(2, "a", 5, false)
  const READING: SplitAction<int> := ReadSnapshot(1, 2, [("a", 5)])

  /** Two nodes that both follow node 2, which holds what its store should. */
  ghost predicate PairState(s: System<int>, kv: map<string, int>) {
    && s.leaf.Keys == s.up == {1, 2} && s.now == 0
    && s.leaf[1] == Node(1) && s.leaf[2] == Node(2).(store := s.leaf[2].store) && s.leaf[2].store.kv == kv
    && Orderly(s, 2) && LeaderIsLatest(s, 2, kv)
  }

  lemma PairFollows(s: System<int>, kv: map<string, int>)
    requires PairState(s, kv)
    ensures OneLeader(s, 2) && AcceptsWrites(s, 2)
    ensures CurrentLeader(s.leaf[1]).Some? && Registered(s.leaf[2].localNodes, 1) && SomeAlive(s.leaf[2].localNodes, 1)
  {
    TableEntries();
    assert TABLE[0].isAlive && TABLE[0].nodeId == 1;
    assert forall i :: i in s.leaf ==> i in {1, 2};
  }

  /** A step that leaves both nodes as they were keeps the pair in order. */
  lemma PairStaysOrderly(s: Split<int>, a: SplitAction<int>, kv: map<string, int>, kv': map<string, int>)
    requires PairState(s.sys, kv) && s.held == map[] && SplitEnabled(s, a)
    requires var s' := SplitApply(s, a).sys;
             && s'.leaf.Keys == s'.up == {1, 2} && s'.now == 0
             && s'.leaf[1] == Node(1) && s'.leaf[2] == Node(2).(store := s'.leaf[2].store) && s'.leaf[2].store.kv == kv'
    requires WrittenThen(kv, s.sys, Core(a)) == kv'
    ensures PairState(SplitApply(s, a).sys, kv') && SplitOrderly(SplitApply(s, a), 2)
  {
    hide SplitEnabled, SplitApply, Orderly, LeaderIsLatest;
    var s' := SplitApply(s, a);
    assert forall i :: i in s'.sys.leaf ==> i in {1, 2};
    assert OneLeader(s'.sys, 2);
    SplitStepKeepsOrderly(s, a, s', 2, kv);
  }

  lemma PairStart()
    ensures PairState(Pair(), map[])
  {
    PairIsInitial();
    InitialIsOrderly(Pair(), 2);
  }

  lemma AfterFirstWrite() returns (s: Split<int>)
    ensures var s0 := Split(Pair(), map[]); SplitEnabled(s0, Do(FIRST_WRITE)) && s == SplitApply(s0, Do(FIRST_WRITE))
    ensures s.held == map[] && PairState(s.sys, map["a" := 5]) && Queue(s.sys.net, 1, 2) == []
  {
    PairStart();
    PairFollows(Pair(), map[]);
    var s0 := Split(Pair(), map[]);
    s := SplitApply(s0, Do(FIRST_WRITE));
    QueueAfter(s0.sys, FIRST_WRITE, 1, 2);
    assert map[]["a" := 5] == map["a" := 5];
    PairStaysOrderly(s0, Do(FIRST_WRITE), map[], map["a" := 5]);
  }

  lemma AfterAsking(s: Split<int>) returns (s': Split<int>)
    requires s.held == map[] && PairState(s.sys, map["a" := 5]) && Queue(s.sys.net, 1, 2) == []
    ensures SplitEnabled(s, Do(Start(1))) && s' == SplitApply(s, Do(Start(1)))
    ensures s'.held == map[] && PairState(s'.sys, map["a" := 5]) && Queue(s'.sys.net, 1, 2) == [SyncRequest(1, 0)]
  {
    PairFollows(s.sys, map["a" := 5]);
    s' := SplitApply(s, Do(Start(1)));
    QueueAfter(s.sys, Start(1), 1, 2);
    OneSend<int>(2, SyncRequest(1, 0), 2);
    PairStaysOrderly(s, Do(Start(1)), map["a" := 5], map["a" := 5]);
  }

  lemma AfterReading(s: Split<int>) returns (s': Split<int>)
    requires s.held == map[] && PairState(s.sys, map["a" := 5]) && Queue(s.sys.net, 1, 2) == [SyncRequest(1, 0)]
    ensures SplitEnabled(s, READING) && s' == SplitApply(s, READING)
    ensures SplitOrderly(s', 2) && s'.sys.up == {1, 2} && 1 in s'.sys.leaf
    ensures Overtakes(s', Do(Write(2, "a", 6, false)), 2, 1, "a") && Offer(s'.held[2].message, "a") == Some(5)
  {
    PairFollows(s.sys, map["a" := 5]);
    assert Keys([("a", 5)]) == ["a"];
    hide SomeAlive, CurrentLeader, Orderly, LeaderIsLatest, Stamped, PayloadMap, IndexFrom;
    s' := SplitApply(s, READING);
    AnswerIsSnapshot(s.sys, 1, 2, [("a", 5)]);
    PayloadRoundTrip(s.sys.leaf[2].store.kv, [("a", 5)], 0);
    PairStaysOrderly(s, READING, map["a" := 5], map["a" := 5]);
    PairFollows(s'.sys, map["a" := 5]);
  }

  /** Node 2 accepts a write, node 1 asks for a snapshot, and node 2 reads its store. */
  lemma SnapshotIsHeld() returns (actions: seq<SplitAction<int>>, s: Split<int>)
    ensures Leads(Split(Pair(), map[]), actions, s) && SplitOrderly(s, 2) && s.sys.up == {1, 2}
    ensures 1 in s.sys.leaf && Overtakes(s, Do(Write(2, "a", 6, false)), 2, 1, "a")
    ensures Offer(s.held[2].message, "a") == Some(5)
  {
    var s0: Split<int> := Split(Pair(), map[]);
    var s1 := AfterFirstWrite();
    var s2 := AfterAsking(s1);
    s := AfterReading(s2);
    hide SplitOrderly, Leads, Overtakes, Offer, PairState, SplitEnabled, SplitApply;
    OneStepLeads(s0, Do(FIRST_WRITE));
    OneStepLeads(s1, Do(Start(1)));
    OneStepLeads(s2, READING);
    LeadsOn(s0, [Do(FIRST_WRITE)], s1, [Do(Start(1))], s2);
    LeadsOn(s0, [Do(FIRST_WRITE)] + [Do(Start(1))], s2, [READING], s);
    actions := [Do(FIRST_WRITE)] + [Do(Start(1))] + [READING];
  }

  /** From the start of a two-node cluster on, a write can overtake a snapshot, and then the follower can have
      the value written and an earlier one again. */
  lemma RollbackHappens() returns (before: seq<SplitAction<int>>, s: Split<int>)
    ensures Initial(Pair(), 2) && Leads(Split(Pair(), map[]), before, s)
    ensures var push := Do(Write(2, "a", 6, false));
            SplitEnabled(s, push) && CanRollBack(SplitApply(s, push), 1, "a", 6, 5)
  {
    hide SplitOrderly, SplitEnabled, SplitApply, Leads, Offer, Overtakes, CanRollBack;
    PairIsInitial();
    before, s := SnapshotIsHeld();
    OvertakingRollsBack(s, 2, 1, "a", 6);
  }
}
