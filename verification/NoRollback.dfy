/** Values at a follower never roll back while one node leads: not across lost or skipped pushes,
    snapshots, evictions or reads. */
module NoRollback {
  import opened Lists
  import opened Lru
  import opened Leaf
  import opened Cluster
  import opened Replication

  type Rank<!V> = (string, V) -> int

  /** Successive accepted writes of a key never decrease in rank. */
  ghost predicate RisingWrites<V>(states: seq<System<V>>, actions: seq<Action<V>>, rank: Rank<V>)
    requires |states| == |actions| + 1
  {
    forall n :: 0 <= n < |actions| && AcceptedWrite(states[n], actions[n])
                && actions[n].key in Written(states, actions, n) ==>
                  rank(actions[n].key, Written(states, actions, n)[actions[n].key])
                  <= rank(actions[n].key, actions[n].value)
  }

  predicate AtLeast(lo: Option<int>, x: int) {
    lo.None? || lo.value <= x
  }

  /** From `lo` through the values on the link to the latest written value, ranks of k never decrease. */
  predicate Rising<V>(lo: Option<int>, d: seq<Message<V>>, k: string, w: map<string, V>, rank: Rank<V>)
    decreases |d|
  {
    if d == [] then lo.None? || (k in w && lo.value <= rank(k, w[k]))
    else match Offer(d[0], k)
      case None => Rising(lo, d[1..], k, w, rank)
      case Some(v) => AtLeast(lo, rank(k, v)) && Rising(Some(rank(k, v)), d[1..], k, w, rank)
  }

  lemma {:induction false} RisingFromLower<V>(lo: Option<int>, lower: Option<int>, d: seq<Message<V>>, k: string,
                                              w: map<string, V>, rank: Rank<V>)
    requires Rising(lo, d, k, w, rank)
    requires lower.None? || (lo.Some? && lower.value <= lo.value)
    ensures Rising(lower, d, k, w, rank)
    decreases |d|
  {
    if d == [] {
    } else {
      if Offer(d[0], k).None? {
        RisingFromLower(lo, lower, d[1..], k, w, rank);
      }
    }
  }

  /** Later writes only raise the far end. */
  lemma {:induction false} RisingToHigher<V>(lo: Option<int>, d: seq<Message<V>>, k: string, w: map<string, V>,
                                             w': map<string, V>, rank: Rank<V>)
    requires Rising(lo, d, k, w, rank)
    requires k in w ==> k in w' && rank(k, w[k]) <= rank(k, w'[k])
    ensures Rising(lo, d, k, w', rank)
    decreases |d|
  {
    if d == [] {
    } else {
      match Offer(d[0], k)
      case None => RisingToHigher(lo, d[1..], k, w, w', rank);
      case Some(v) => RisingToHigher(Some(rank(k, v)), d[1..], k, w, w', rank);
    }
  }

  /** A message that offers the latest value, or nothing, can join the link. */
  lemma {:induction false} RisingAppend<V>(lo: Option<int>, d: seq<Message<V>>, m: Message<V>, k: string,
                                           w: map<string, V>, rank: Rank<V>)
    requires Rising(lo, d, k, w, rank)
    requires Offer(m, k).Some? ==> k in w && w[k] == Offer(m, k).value
    ensures Rising(lo, d + [m], k, w, rank)
    decreases |d|
  {
    if d == [] {
      assert ([] + [m])[1..] == [];
    } else {
      assert (d + [m])[1..] == d[1..] + [m];
      match Offer(d[0], k)
      case None => RisingAppend(lo, d[1..], m, k, w, rank);
      case Some(v) => RisingAppend(Some(rank(k, v)), d[1..], m, k, w, rank);
    }
  }

  /** Losing messages from the middle of the link keeps what is left rising. */
  lemma {:induction false} RisingAfterLoss<V>(lo: Option<int>, a: seq<Message<V>>, lost: seq<Message<V>>,
                                              b: seq<Message<V>>, k: string, w: map<string, V>, rank: Rank<V>)
    requires Rising(lo, a + lost + b, k, w, rank)
    ensures Rising(lo, a + b, k, w, rank)
    decreases |a| + |lost|
  {
    if a != [] {
      assert (a + lost + b)[1..] == a[1..] + lost + b && (a + b)[1..] == a[1..] + b;
      match Offer(a[0], k)
      case None => RisingAfterLoss(lo, a[1..], lost, b, k, w, rank);
      case Some(v) => RisingAfterLoss(Some(rank(k, v)), a[1..], lost, b, k, w, rank);
    } else if lost != [] {
      assert (a + lost + b)[1..] == a + lost[1..] + b;
      if Offer(lost[0], k).Some? {
        RisingFromLower(Some(rank(k, Offer(lost[0], k).value)), lo, a + lost[1..] + b, k, w, rank);
      }
      RisingAfterLoss(lo, a, lost[1..], b, k, w, rank);
    } else {
      assert a + lost + b == a + b;
    }
  }

  // ----- One step -----

  function HeldRank<V>(c: Cache<V>, k: string, rank: Rank<V>): Option<int> {
    if k in c.kv then Some(rank(k, c.kv[k])) else None
  }

  /** The leader holds nothing but latest values. */
  ghost predicate LeaderIsLatest<V>(s: System<V>, leader: int, w: map<string, V>) {
    leader in s.leaf && forall k :: k in s.leaf[leader].store.kv ==> k in w && s.leaf[leader].store.kv[k] == w[k]
  }

  lemma LeaderStaysLatest<V(!new)>(s: System<V>, a: Action<V>, s': System<V>, leader: int, w: map<string, V>)
    requires Orderly(s, leader) && Enabled(s, a) && s' == Apply(s, a) && LeaderIsLatest(s, leader, w)
    ensures LeaderIsLatest(s', leader, WrittenThen(w, s, a))
  {
    StoreAfter(s, a, leader, leader);
    OrderlyLeads(s, leader);
    LeaderStore(s, a, leader);
    if AcceptedWrite(s, a) {
      InsertEffect(s.leaf[leader].store, a.key, a.value);
    }
  }

  /** What is sent to a follower in one step keeps the link rising. */
  lemma RisingAfterFeeding<V(!new)>(s: System<V>, a: Action<V>, leader: int, f: int, lo: Option<int>, k: string,
                                    w: map<string, V>, rank: Rank<V>)
    requires Orderly(s, leader) && Enabled(s, a) && LeaderIsLatest(s, leader, w)
    requires AcceptedWrite(s, a) && a.key in w ==> rank(a.key, w[a.key]) <= rank(a.key, a.value)
    requires Rising(lo, Data(Queue(s.net, leader, f)), k, w, rank)
    ensures Rising(lo, Data(Queue(s.net, leader, f)) + Fed(s, a, leader, f), k, WrittenThen(w, s, a), rank)
  {
    OrderlyFacts(s, leader);
    hide Orderly, Data;
    var d, fed, w' := Data(Queue(s.net, leader, f)), Fed(s, a, leader, f), WrittenThen(w, s, a);
    RisingToHigher(lo, d, k, w, w', rank);
    if fed == [] {
      assert d + fed == d;
    } else {
      FedOffers(s, a, leader, f, 0, k);
      RisingAppend(lo, d, fed[0], k, w', rank);
      assert fed == [fed[0]];
    }
  }

  /** A link that rises from `lo`, and a follower not below `lo`, stay so through a step. */
  lemma RisingAfterStep<V(!new)>(s: System<V>, a: Action<V>, s': System<V>, leader: int, f: int, lo: Option<int>,
                                 k: string, w: map<string, V>, rank: Rank<V>)
    requires Orderly(s, leader) && Enabled(s, a) && s' == Apply(s, a) && LeaderIsLatest(s, leader, w)
    requires AcceptedWrite(s, a) && a.key in w ==> rank(a.key, w[a.key]) <= rank(a.key, a.value)
    requires f in s.leaf && f in s'.leaf && f != leader
    requires Rising(lo, Data(Queue(s.net, leader, f)), k, w, rank)
    requires k in s.leaf[f].store.kv ==> AtLeast(lo, rank(k, s.leaf[f].store.kv[k]))
    ensures Rising(lo, Data(Queue(s'.net, leader, f)), k, WrittenThen(w, s, a), rank)
    ensures k in s'.leaf[f].store.kv ==> AtLeast(lo, rank(k, s'.leaf[f].store.kv[k]))
  {
    hide Orderly, Feeds, Data, StoreThen, Fed, Apply, Enabled, Received;
    var d, d', w' := Data(Queue(s.net, leader, f)), Data(Queue(s'.net, leader, f)), WrittenThen(w, s, a);
    OrderlyFacts(s, leader);
    OrderlyFeeds(s, leader, f);
    FollowerFacts(s, a, s', leader, f);
    RisingToHigher(lo, d, k, w, w', rank);
    RisingAfterFeeding(s, a, leader, f, lo, k, w, rank);
    if a.Deliver? && a.sender == leader && a.node == f {
      var m := Queue(s.net, leader, f)[0];
      ReceivedEffect(s.leaf[f].store, m, a.order);
      DeliveredRises(lo, m, d', k, w', rank);
    } else if a.Drop? && a.sender == leader && a.node == f {
      var q, i := Queue(s.net, leader, f), a.position;
      RisingAfterLoss(lo, Data(q[..i]), DataOf(q[i]), Data(q[i + 1..]), k, w', rank);
    }
  }

  lemma DeliveredRises<V>(lo: Option<int>, m: Message<V>, rest: seq<Message<V>>, k: string, w: map<string, V>,
                          rank: Rank<V>)
    requires Rising(lo, DataOf(m) + rest, k, w, rank)
    ensures Rising(lo, rest, k, w, rank)
    ensures Offer(m, k).Some? ==>
              AtLeast(lo, rank(k, Offer(m, k).value)) && Rising(Some(rank(k, Offer(m, k).value)), rest, k, w, rank)
  {
    if DataOf(m) == [] {
      assert DataOf(m) + rest == rest;
    } else {
      assert (DataOf(m) + rest)[1..] == rest;
      if Offer(m, k).Some? {
        RisingFromLower(Some(rank(k, Offer(m, k).value)), lo, rest, k, w, rank);
      }
    }
  }

  /** The link rises from whatever the follower holds. */
  lemma HeldAfterStep<V(!new)>(s: System<V>, a: Action<V>, s': System<V>, leader: int, f: int, k: string,
                               w: map<string, V>, rank: Rank<V>)
    requires Orderly(s, leader) && Enabled(s, a) && s' == Apply(s, a) && LeaderIsLatest(s, leader, w)
    requires AcceptedWrite(s, a) && a.key in w ==> rank(a.key, w[a.key]) <= rank(a.key, a.value)
    requires f in s.leaf && f in s'.leaf && f != leader
    requires Rising(HeldRank(s.leaf[f].store, k, rank), Data(Queue(s.net, leader, f)), k, w, rank)
    ensures Rising(HeldRank(s'.leaf[f].store, k, rank), Data(Queue(s'.net, leader, f)), k, WrittenThen(w, s, a), rank)
  {
    hide Orderly, Feeds, Data, StoreThen, Fed, Apply, Enabled, Received;
    var c, c' := s.leaf[f].store, s'.leaf[f].store;
    var d, d', w' := Data(Queue(s.net, leader, f)), Data(Queue(s'.net, leader, f)), WrittenThen(w, s, a);
    OrderlyFacts(s, leader);
    RisingAfterStep(s, a, s', leader, f, HeldRank(c, k, rank), k, w, rank);
    OrderlyFeeds(s, leader, f);
    FollowerFacts(s, a, s', leader, f);
    RisingToHigher(HeldRank(c, k, rank), d, k, w, w', rank);
    if k !in c'.kv {
      RisingFromLower(HeldRank(c, k, rank), None, d', k, w', rank);
    }
    if a.Deliver? && a.sender == leader && a.node == f {
      var m := Queue(s.net, leader, f)[0];
      ReceivedEffect(c, m, a.order);
      DeliveredRises(HeldRank(c, k, rank), m, d', k, w', rank);
    }
  }

  // ----- Whole runs -----

  lemma {:induction false} LinksRise<V(!new)>(states: seq<System<V>>, actions: seq<Action<V>>, leader: int,
                                              rank: Rank<V>, f: int, k: string, n: nat)
    requires OneLeaderRun(states, actions, leader) && RisingWrites(states, actions, rank) && n < |states|
    requires f in states[0].leaf && f != leader
    ensures f in states[n].leaf && LeaderIsLatest(states[n], leader, Written(states, actions, n))
    ensures Rising(HeldRank(states[n].leaf[f].store, k, rank), Data(Queue(states[n].net, leader, f)), k,
                   Written(states, actions, n), rank)
    decreases n
  {
    hide Orderly, Initial, OneLeader;
    RunIsOrderly(states, actions, leader, n);
    if n == 0 {
      EmptyStart(states[0], leader, f);
    } else {
      LinksRise(states, actions, leader, rank, f, k, n - 1);
      RunIsOrderly(states, actions, leader, n - 1);
      var s, a, w := states[n - 1], actions[n - 1], Written(states, actions, n - 1);
      LeaderStaysLatest(s, a, states[n], leader, w);
      HeldAfterStep(s, a, states[n], leader, f, k, w, rank);
    }
  }

  lemma EmptyStart<V(!new)>(s: System<V>, leader: int, f: int)
    requires Initial(s, leader) && f in s.leaf
    ensures leader in s.leaf && s.leaf[f].store.kv == map[] && s.leaf[leader].store.kv == map[]
    ensures Data(Queue(s.net, leader, f)) == []
  {
    FreshStores(s, leader);
  }

  lemma HeldIsAtLeast<V>(c: Cache<V>, k: string, rank: Rank<V>)
    ensures k in c.kv ==> AtLeast(HeldRank(c, k, rank), rank(k, c.kv[k]))
  {
  }

  lemma NextWriteRises<V(!new)>(states: seq<System<V>>, actions: seq<Action<V>>, rank: Rank<V>, n: nat)
    requires |states| == |actions| + 1 && RisingWrites(states, actions, rank) && n < |actions|
    ensures var a, w := actions[n], Written(states, actions, n);
            AcceptedWrite(states[n], a) && a.key in w ==> rank(a.key, w[a.key]) <= rank(a.key, a.value)
  {
  }

  /** The link from the leader rises from `lo`, and the follower holds nothing of key k below it. */
  ghost predicate Above<V>(s: System<V>, leader: int, f: int, lo: Option<int>, k: string, w: map<string, V>,
                           rank: Rank<V>) {
    && f in s.leaf
    && Rising(lo, Data(Queue(s.net, leader, f)), k, w, rank)
    && (k in s.leaf[f].store.kv ==> AtLeast(lo, rank(k, s.leaf[f].store.kv[k])))
  }

  lemma StepStaysAbove<V(!new)>(s: System<V>, a: Action<V>, s': System<V>, leader: int, f: int, lo: Option<int>,
                                k: string, w: map<string, V>, rank: Rank<V>)
    requires Orderly(s, leader) && Enabled(s, a) && s' == Apply(s, a) && LeaderIsLatest(s, leader, w) && f != leader
    requires AcceptedWrite(s, a) && a.key in w ==> rank(a.key, w[a.key]) <= rank(a.key, a.value)
    requires Above(s, leader, f, lo, k, w, rank)
    ensures Above(s', leader, f, lo, k, WrittenThen(w, s, a), rank)
  {
    StepKeepsStatic(s, a, leader);
    hide Orderly, Rising, AtLeast;
    RisingAfterStep(s, a, s', leader, f, lo, k, w, rank);
  }

  lemma {:induction false} LinkStaysAbove<V(!new)>(states: seq<System<V>>, actions: seq<Action<V>>, leader: int,
                                                   rank: Rank<V>, f: int, lo: Option<int>, k: string, m: nat, n: nat)
    requires OneLeaderRun(states, actions, leader) && RisingWrites(states, actions, rank) && m <= n < |states|
    requires f in states[0].leaf && f != leader
    requires Above(states[m], leader, f, lo, k, Written(states, actions, m), rank)
    ensures Above(states[n], leader, f, lo, k, Written(states, actions, n), rank)
    decreases n
  {
    hide Orderly, Initial, OneLeader, RisingWrites, Enabled, Above, LeaderIsLatest, Rising, Apply, AcceptedWrite,
         WrittenThen;
    if m == n {
    } else {
      LinkStaysAbove(states, actions, leader, rank, f, lo, k, m, n - 1);
      RunIsOrderly(states, actions, leader, n - 1);
      LinksRise(states, actions, leader, rank, f, k, n - 1);
      NextWriteRises(states, actions, rank, n - 1);
      StepStaysAbove(states[n - 1], actions[n - 1], states[n], leader, f, lo, k, Written(states, actions, n - 1), rank);
    }
  }

  /** If the leader's writes of a key never decrease in rank, neither do the values a follower holds for it,
      from any point of the run to any later one, evictions in between included. */
  lemma ReplicaNeverRollsBack<V(!new)>(states: seq<System<V>>, actions: seq<Action<V>>, leader: int, rank: Rank<V>,
                                       f: int, k: string, m: nat, n: nat)
    requires OneLeaderRun(states, actions, leader) && RisingWrites(states, actions, rank) && m <= n < |states|
    requires f in states[0].leaf && f != leader && f in states[m].leaf && f in states[n].leaf
    requires k in states[m].leaf[f].store.kv && k in states[n].leaf[f].store.kv
    ensures rank(k, states[m].leaf[f].store.kv[k]) <= rank(k, states[n].leaf[f].store.kv[k])
  {
    hide Orderly, Initial, OneLeader, RisingWrites;
    var lo := HeldRank(states[m].leaf[f].store, k, rank);
    LinksRise(states, actions, leader, rank, f, k, m);
    HeldIsAtLeast(states[m].leaf[f].store, k, rank);
    LinkStaysAbove(states, actions, leader, rank, f, lo, k, m, n);
  }
}
