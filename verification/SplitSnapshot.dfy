/** Answering a sync request reads the store and then sends what was read, and writes can be accepted in
    between. A follower's value of a key cannot roll back as long as no push of that key overtakes a snapshot
    that holds the key and is still to be sent. */
module SplitSnapshot {
  import opened Lists
  import opened Lru
  import opened LruStore
  import opened Leaf
  import opened Cluster
  import opened Replication
  import opened NoRollback

  /** A cluster some of whose nodes have read their store for a snapshot and not sent it yet. A node handles
      its messages one after the other, so it holds one snapshot at most. */
  datatype Split<V> = Split(sys: System<V>, held: map<int, Send<V>>)

  datatype SplitAction<V> =
    | Do(action: Action<V>)
    | ReadSnapshot(sender: int, node: int, order: seq<(string, V)>)
    | SendSnapshot(node: int)

  /** The next message from f asks node t for a snapshot, and t knows whom to send it to. */
  predicate Asks<V>(s: System<V>, f: int, t: int) {
    && t in s.leaf && Queue(s.net, f, t) != [] && Queue(s.net, f, t)[0].SyncRequest?
    && Registered(s.leaf[t].localNodes, Queue(s.net, f, t)[0].followerId)
  }

  ghost predicate SplitEnabled<V>(s: Split<V>, a: SplitAction<V>) {
    match a
    case Do(b) => Enabled(s.sys, b) && (b.Deliver? ==> b.node !in s.held && !Asks(s.sys, b.sender, b.node))
    case ReadSnapshot(f, t, order) => t !in s.held && Asks(s.sys, f, t) && Enabled(s.sys, Deliver(f, t, order))
    case SendSnapshot(t) => t in s.held && t in s.sys.up
  }

  /** The snapshot is what the whole step would send. */
  function Answer<V>(s: System<V>, f: int, t: int, order: seq<(string, V)>): Send<V>
    requires Asks(s, f, t)
  {
    Local(s, Deliver(f, t, order)).1[0]
  }

  function SplitApply<V>(s: Split<V>, a: SplitAction<V>): Split<V>
    requires SplitEnabled(s, a)
  {
    match a
    case Do(b) => s.(sys := Apply(s.sys, b))
    case ReadSnapshot(f, t, order) => Split(Apply(s.sys, Drop(f, t, 0)), s.held[t := Answer(s.sys, f, t, order)])
    case SendSnapshot(t) => Split(s.sys.(net := Dispatch(s.sys.net, t, [s.held[t]])), s.held - {t})
  }

  /** With nothing in between, the two halves are the step of module Cluster. */
  lemma HalvesMakeTheStep<V(!new)>(s: Split<V>, f: int, t: int, order: seq<(string, V)>)
    requires SplitEnabled(s, ReadSnapshot(f, t, order))
    ensures var r := SplitApply(s, ReadSnapshot(f, t, order));
            && SplitEnabled(r, SendSnapshot(t))
            && SplitApply(r, SendSnapshot(t)) == s.(sys := Apply(s.sys, Deliver(f, t, order)))
  {
    hide Dispatch, Enumerates;
    var q := Queue(s.sys.net, f, t);
    var r := SplitApply(s, ReadSnapshot(f, t, order));
    assert q[..0] + q[1..] == q[1..];
    assert s.sys.leaf[t := s.sys.leaf[t]] == s.sys.leaf;
    assert Local(s.sys, Deliver(f, t, order)) == (s.sys.leaf[t], [Answer(s.sys, f, t, order)]);
    assert r.held - {t} == s.held;
  }

  // ----- Runs -----

  /** The step of module Cluster that has the same effect on writes and stores. */
  function Core<V>(a: SplitAction<V>): Action<V> {
    match a
    case Do(b) => b
    case ReadSnapshot(f, t, _) => Drop(f, t, 0)
    case SendSnapshot(_) => Tick(0)
  }

  function Cores<V>(actions: seq<SplitAction<V>>): (r: seq<Action<V>>)
    ensures |r| == |actions|
  {
    seq(|actions|, i requires 0 <= i < |actions| => Core(actions[i]))
  }

  function Systems<V>(states: seq<Split<V>>): (r: seq<System<V>>)
    ensures |r| == |states|
  {
    seq(|states|, i requires 0 <= i < |states| => states[i].sys)
  }

  ghost predicate IsSplitRun<V>(states: seq<Split<V>>, actions: seq<SplitAction<V>>) {
    && |states| == |actions| + 1
    && forall k :: 0 <= k < |actions| ==>
         SplitEnabled(states[k], actions[k]) && states[k + 1] == SplitApply(states[k], actions[k])
  }

  ghost predicate OneLeaderSplitRun<V>(states: seq<Split<V>>, actions: seq<SplitAction<V>>, leader: int) {
    && IsSplitRun(states, actions) && Initial(states[0].sys, leader) && states[0].held == map[]
    && forall k :: 0 <= k < |states| ==> OneLeader(states[k].sys, leader)
  }

  /** Node i has read a snapshot for node f and not sent it yet. */
  predicate Holding<V>(s: Split<V>, i: int, f: int) {
    i in s.held && s.held[i].destination == f
  }

  /** A push of key k goes to follower f while a snapshot that holds k is still to be sent to it. */
  predicate Overtakes<V>(s: Split<V>, a: SplitAction<V>, leader: int, f: int, k: string) {
    && a.Do? && AcceptedWrite(s.sys, a.action) && a.action.key == k
    && leader in s.sys.leaf && SomeAlive(s.sys.leaf[leader].localNodes, f)
    && Holding(s, leader, f) && Offer(s.held[leader].message, k).Some?
  }

  ghost predicate NothingOvertakes<V>(states: seq<Split<V>>, actions: seq<SplitAction<V>>, leader: int, f: int,
                                      k: string) {
    |states| == |actions| + 1 && forall n :: 0 <= n < |actions| ==> !Overtakes(states[n], actions[n], leader, f, k)
  }

  // ----- What every step keeps -----

  ghost predicate HeldForFollowers<V>(s: Split<V>, leader: int) {
    forall t :: t in s.held ==> t == leader && s.held[t].destination != leader && s.held[t].message.SyncResponse?
  }

  ghost predicate SplitOrderly<V(!new)>(s: Split<V>, leader: int) {
    Orderly(s.sys, leader) && HeldForFollowers(s, leader)
  }

  /** Only followers ask, and only the leader. */
  lemma AskedByFollower<V(!new)>(s: System<V>, leader: int, f: int, t: int)
    requires Orderly(s, leader) && Asks(s, f, t)
    ensures t == leader && f != leader && Queue(s.net, f, t)[0].followerId == f
  {
    assert Queue(s.net, f, t)[0] in Queue(s.net, f, t);
    assert OneWay(Queue(s.net, f, t)[0], f, t, leader);
  }

  /** The network once a snapshot has been sent. */
  lemma LinksAfterSend<V(!new)>(s: Split<V>, t: int, i: int, j: int)
    requires SplitEnabled(s, SendSnapshot(t))
    ensures Queue(SplitApply(s, SendSnapshot(t)).sys.net, i, j) ==
            Queue(s.sys.net, i, j) + if i == t && s.held[t].destination == j then [s.held[t].message] else []
  {
    DispatchAppends(s.sys.net, t, [s.held[t]], i, j);
    OneSend(s.held[t].destination, s.held[t].message, j);
  }

  lemma SendKeepsOrderly<V(!new)>(s: Split<V>, t: int, leader: int)
    requires SplitOrderly(s, leader) && SplitEnabled(s, SendSnapshot(t))
    ensures Orderly(SplitApply(s, SendSnapshot(t)).sys, leader)
  {
    hide Dispatch, StaticLeaf, Lru.Valid;
    var s' := SplitApply(s, SendSnapshot(t));
    forall i, j, m | m in Queue(s'.sys.net, i, j)
      ensures WellAddressed(m, i, j) && i in s'.sys.leaf && OneWay(m, i, j, leader)
    {
      LinksAfterSend(s, t, i, j);
      assert m in Queue(s.sys.net, i, j) || (i == t && s.held[t].destination == j && m == s.held[t].message);
    }
  }

  lemma SplitStepKeepsOrderly<V(!new)>(s: Split<V>, a: SplitAction<V>, s': Split<V>, leader: int, w: map<string, V>)
    requires SplitOrderly(s, leader) && SplitEnabled(s, a) && s' == SplitApply(s, a) && OneLeader(s'.sys, leader)
    requires LeaderIsLatest(s.sys, leader, w)
    ensures SplitOrderly(s', leader) && s'.sys.leaf.Keys == s.sys.leaf.Keys
    ensures LeaderIsLatest(s'.sys, leader, WrittenThen(w, s.sys, Core(a)))
  {
    hide Orderly, Apply, Enabled, OneLeader, Local;
    match a
    case Do(b) =>
      StepKeepsOrderly(s.sys, b, s'.sys, leader);
      LeaderStaysLatest(s.sys, b, s'.sys, leader, w);
    case ReadSnapshot(f, t, order) =>
      AskedByFollower(s.sys, leader, f, t);
      DropIsEnabled(s.sys, f, t);
      StepKeepsOrderly(s.sys, Drop(f, t, 0), s'.sys, leader);
      LeaderStaysLatest(s.sys, Drop(f, t, 0), s'.sys, leader, w);
      AnswerIsSnapshot(s.sys, f, t, order);
    case SendSnapshot(t) => SendKeepsOrderly(s, t, leader);
  }

  lemma DropIsEnabled<V>(s: System<V>, f: int, t: int)
    requires Queue(s.net, f, t) != []
    ensures Enabled(s, Drop(f, t, 0)) && Apply(s, Drop(f, t, 0)).leaf == s.leaf
  {
  }

  lemma AnswerIsSnapshot<V>(s: System<V>, f: int, t: int, order: seq<(string, V)>)
    requires Asks(s, f, t)
    ensures var r, l := Queue(s.net, f, t)[0].followerId, s.leaf[t];
            Answer(s, f, t, order) ==
            Send(r, SyncResponse(l.nodeId, r, l.localNodes[IndexOfNode(l.localNodes, r)].lastSync, s.now,
              Stamped(order, s.now)))
  {
  }

  // ----- What is coming to a follower -----

  /** The data on the link, and behind it the snapshot still to be sent. */
  function Coming<V>(s: Split<V>, leader: int, f: int): seq<Message<V>> {
    Data(Queue(s.sys.net, leader, f)) + if Holding(s, leader, f) then [s.held[leader].message] else []
  }

  predicate Arrives<V>(a: SplitAction<V>, leader: int, f: int) {
    a.Do? && a.action.Deliver? && a.action.sender == leader && a.action.node == f
  }

  /** A message without a value for k makes no difference to k. */
  lemma {:induction false} RisingInsert<V>(lo: Option<int>, a: seq<Message<V>>, m: Message<V>, b: seq<Message<V>>,
                                           k: string, w: map<string, V>, rank: Rank<V>)
    requires Rising(lo, a + b, k, w, rank) && Offer(m, k).None?
    ensures Rising(lo, a + [m] + b, k, w, rank)
    decreases |a|
  {
    if a == [] {
      assert (a + [m] + b)[1..] == b == a + b;
    } else {
      assert (a + b)[1..] == a[1..] + b && (a + [m] + b)[1..] == a[1..] + [m] + b;
      match Offer(a[0], k)
      case None => RisingInsert(lo, a[1..], m, b, k, w, rank);
      case Some(v) => RisingInsert(Some(rank(k, v)), a[1..], m, b, k, w, rank);
    }
  }

  /** What an accepted write or any other step of the leader adds, short of answering a request. */
  lemma FedIsPush<V(!new)>(s: Split<V>, b: Action<V>, leader: int, f: int)
    requires SplitOrderly(s, leader) && SplitEnabled(s, Do(b)) && leader in s.sys.leaf
    ensures var fed := Fed(s.sys, b, leader, f);
            fed == if AcceptedWrite(s.sys, b) && SomeAlive(s.sys.leaf[leader].localNodes, f)
                   then [Push(leader, s.sys.now, b.key, b.value)] else []
  {
    if b.Deliver? && b.node == leader {
      assert Queue(s.sys.net, b.sender, leader)[0] in Queue(s.sys.net, b.sender, leader);
      assert OneWay(Queue(s.sys.net, b.sender, leader)[0], b.sender, leader, leader);
    }
  }

  /** Every step but a delivery to the follower keeps what is coming rising, and the follower as it is. */
  lemma StaysRising<V(!new)>(s: Split<V>, a: SplitAction<V>, s': Split<V>, leader: int, f: int, lo: Option<int>,
                             k: string, w: map<string, V>, rank: Rank<V>)
    requires SplitOrderly(s, leader) && SplitEnabled(s, a) && s' == SplitApply(s, a) && LeaderIsLatest(s.sys, leader, w)
    requires f in s.sys.leaf && f != leader && !Arrives(a, leader, f) && !Overtakes(s, a, leader, f, k)
    requires var b := Core(a); AcceptedWrite(s.sys, b) && b.key in w ==> rank(b.key, w[b.key]) <= rank(b.key, b.value)
    requires Rising(lo, Coming(s, leader, f), k, w, rank)
    ensures Rising(lo, Coming(s', leader, f), k, WrittenThen(w, s.sys, Core(a)), rank)
    ensures f in s'.sys.leaf && s'.sys.leaf[f].store.kv == s.sys.leaf[f].store.kv
  {
    hide Orderly, Rising, Apply, Enabled, Data, Offer;
    match a
    case Do(b) => OtherStepRises(s, b, s', leader, f, lo, k, w, rank);
    case ReadSnapshot(g, t, order) => ReadingRises(s, g, t, order, s', leader, f, lo, k, w, rank);
    case SendSnapshot(t) => SendingRises(s, t, s', leader, f, lo, k, w, rank);
  }

  lemma OtherStepRises<V(!new)>(s: Split<V>, b: Action<V>, s': Split<V>, leader: int, f: int, lo: Option<int>,
                                k: string, w: map<string, V>, rank: Rank<V>)
    requires SplitOrderly(s, leader) && SplitEnabled(s, Do(b)) && s' == SplitApply(s, Do(b))
             && LeaderIsLatest(s.sys, leader, w)
    requires f in s.sys.leaf && f != leader && !Arrives(Do(b), leader, f) && !Overtakes(s, Do(b), leader, f, k)
    requires AcceptedWrite(s.sys, b) && b.key in w ==> rank(b.key, w[b.key]) <= rank(b.key, b.value)
    requires Rising(lo, Coming(s, leader, f), k, w, rank)
    ensures Rising(lo, Coming(s', leader, f), k, WrittenThen(w, s.sys, b), rank)
    ensures f in s'.sys.leaf && s'.sys.leaf[f].store.kv == s.sys.leaf[f].store.kv
  {
    hide Orderly, Feeds, Rising, Apply, Enabled, Data, Received, StoreThen, Fed;
    var d, d', w' := Data(Queue(s.sys.net, leader, f)), Data(Queue(s'.sys.net, leader, f)), WrittenThen(w, s.sys, b);
    var h := if Holding(s, leader, f) then [s.held[leader].message] else [];
    RisingToHigher(lo, d + h, k, w, w', rank);
    OrderlyFeeds(s.sys, leader, f);
    FollowerFacts(s.sys, b, s'.sys, leader, f);
    if b.Drop? && b.sender == leader && b.node == f {
      var q, i := Queue(s.sys.net, leader, f), b.position;
      var before, lost, after := Data(q[..i]), DataOf(q[i]), Data(q[i + 1..]);
      assert before + lost + (after + h) == d + h && before + (after + h) == d' + h;
      RisingAfterLoss(lo, before, lost, after + h, k, w', rank);
    } else if IsLocal(b) && b.node == leader {
      FedIsPush(s, b, leader, f);
      FedRises(lo, d, Fed(s.sys, b, leader, f), h, k, w', rank);
    }
  }

  /** A last message without a value for k can be left out. */
  lemma {:induction false} RisingWithoutLast<V>(lo: Option<int>, d: seq<Message<V>>, m: Message<V>, k: string,
                                                w: map<string, V>, rank: Rank<V>)
    requires Rising(lo, d + [m], k, w, rank) && Offer(m, k).None?
    ensures Rising(lo, d, k, w, rank)
    decreases |d|
  {
    if d == [] {
      assert ([] + [m])[1..] == [];
    } else {
      assert (d + [m])[1..] == d[1..] + [m];
      match Offer(d[0], k)
      case None => RisingWithoutLast(lo, d[1..], m, k, w, rank);
      case Some(v) => RisingWithoutLast(Some(rank(k, v)), d[1..], m, k, w, rank);
    }
  }

  /** A push of k joins the link in front of a held snapshot only if that does not hold k. */
  lemma FedRises<V>(lo: Option<int>, d: seq<Message<V>>, fed: seq<Message<V>>, h: seq<Message<V>>, k: string,
                    w: map<string, V>, rank: Rank<V>)
    requires Rising(lo, d + h, k, w, rank) && |fed| <= 1
    requires fed != [] ==> fed[0].Push? && fed[0].key in w && w[fed[0].key] == fed[0].value
    requires fed != [] && fed[0].key == k ==> h == [] || (|h| == 1 && Offer(h[0], k).None?)
    ensures Rising(lo, d + fed + h, k, w, rank)
  {
    hide Rising;
    if fed == [] {
      assert d + fed == d;
    } else {
      assert fed == [fed[0]];
      if fed[0].key == k && h == [] {
        assert d + h == d && d + fed + h == d + [fed[0]];
        RisingAppend(lo, d, fed[0], k, w, rank);
      } else if fed[0].key == k {
        assert h == [h[0]];
        RisingWithoutLast(lo, d, h[0], k, w, rank);
        RisingAppend(lo, d, fed[0], k, w, rank);
        RisingAppend(lo, d + [fed[0]], h[0], k, w, rank);
      } else {
        RisingInsert(lo, d, fed[0], h, k, w, rank);
      }
    }
  }

  lemma AnswerOffersLatest<V(!new)>(s: Split<V>, g: int, t: int, order: seq<(string, V)>, k: string, w: map<string, V>)
    requires Asks(s.sys, g, t) && Enumerates(order, s.sys.leaf[t].store.kv) && LeaderIsLatest(s.sys, t, w)
    ensures var a := Answer(s.sys, g, t, order);
            && a.destination == Queue(s.sys.net, g, t)[0].followerId
            && (Offer(a.message, k).Some? ==> k in w && w[k] == Offer(a.message, k).value)
  {
    hide Stamped, PayloadMap, Answer, Enumerates;
    AnswerIsSnapshot(s.sys, g, t, order);
    PayloadRoundTrip(s.sys.leaf[t].store.kv, order, s.sys.now);
  }

  /** What is read is the latest. */
  lemma ReadingRises<V(!new)>(s: Split<V>, g: int, t: int, order: seq<(string, V)>, s': Split<V>, leader: int, f: int,
                              lo: Option<int>, k: string, w: map<string, V>, rank: Rank<V>)
    requires SplitOrderly(s, leader) && SplitEnabled(s, ReadSnapshot(g, t, order))
             && s' == SplitApply(s, ReadSnapshot(g, t, order))
    requires LeaderIsLatest(s.sys, leader, w) && f in s.sys.leaf && f != leader
    requires Rising(lo, Coming(s, leader, f), k, w, rank)
    ensures Rising(lo, Coming(s', leader, f), k, w, rank)
    ensures f in s'.sys.leaf && s'.sys.leaf[f].store.kv == s.sys.leaf[f].store.kv
  {
    hide Orderly, Rising, Data, Offer, Answer, Enumerates, LeaderIsLatest;
    AskedByFollower(s.sys, leader, g, t);
    AnswerOffersLatest(s, g, t, order, k, w);
    var d := Data(Queue(s.sys.net, leader, f));
    assert Queue(s'.sys.net, leader, f) == Queue(s.sys.net, leader, f);
    var m := s'.held[leader].message;
    assert d + [] == d;
    if g == f {
      RisingAppend(lo, d, m, k, w, rank);
    }
  }

  /** Sending moves the snapshot to where it was expected. */
  lemma SendingRises<V(!new)>(s: Split<V>, t: int, s': Split<V>, leader: int, f: int, lo: Option<int>, k: string,
                              w: map<string, V>, rank: Rank<V>)
    requires SplitOrderly(s, leader) && SplitEnabled(s, SendSnapshot(t)) && s' == SplitApply(s, SendSnapshot(t))
    requires f in s.sys.leaf && f != leader
    requires Rising(lo, Coming(s, leader, f), k, w, rank)
    ensures Rising(lo, Coming(s', leader, f), k, w, rank)
    ensures f in s'.sys.leaf && s'.sys.leaf[f].store.kv == s.sys.leaf[f].store.kv
  {
    hide Orderly, Rising, Data;
    var q, m := Queue(s.sys.net, leader, f), s.held[t].message;
    LinksAfterSend(s, t, leader, f);
    DataConcat(q, [m]);
    DataSingle(m);
    assert q + [] == q;
    assert Coming(s', leader, f) == Coming(s, leader, f);
  }

  /** A delivery takes the first of what is coming. */
  lemma ArrivalTakes<V(!new)>(s: Split<V>, a: SplitAction<V>, s': Split<V>, leader: int, f: int)
    requires SplitOrderly(s, leader) && SplitEnabled(s, a) && s' == SplitApply(s, a)
    requires leader in s.sys.leaf && f in s.sys.leaf && f != leader && Arrives(a, leader, f)
    ensures f in s'.sys.leaf && Lru.Valid(s.sys.leaf[f].store) && Queue(s.sys.net, leader, f) != []
    ensures var m, c := Queue(s.sys.net, leader, f)[0], s.sys.leaf[f].store;
            && Coming(s, leader, f) == DataOf(m) + Coming(s', leader, f)
            && s'.sys.leaf[f].store.kv == Received(c, m, a.action.order).kv
            && (m.SyncResponse? ==> Enumerates(a.action.order, PayloadMap(m.payload)))
    ensures !AcceptedWrite(s.sys, Core(a))
  {
    hide Orderly, Feeds, Apply, Enabled, Data, Received, StoreThen, Fed, AcceptedWrite, PayloadMap, Enumerates;
    OrderlyFeeds(s.sys, leader, f);
    FollowerFacts(s.sys, a.action, s'.sys, leader, f);
    var m, h := Queue(s.sys.net, leader, f)[0], if Holding(s, leader, f) then [s.held[leader].message] else [];
    assert DataOf(m) + Data(Queue(s'.sys.net, leader, f)) + h == DataOf(m) + (Data(Queue(s'.sys.net, leader, f)) + h);
  }

  /** What is coming to the follower rises from `lo`, and it holds nothing of key k below that. */
  ghost predicate ComesAbove<V>(s: Split<V>, leader: int, f: int, lo: Option<int>, k: string, w: map<string, V>,
                                rank: Rank<V>) {
    && f in s.sys.leaf && Rising(lo, Coming(s, leader, f), k, w, rank)
    && (k in s.sys.leaf[f].store.kv ==> AtLeast(lo, rank(k, s.sys.leaf[f].store.kv[k])))
  }

  lemma StepComesAbove<V(!new)>(s: Split<V>, a: SplitAction<V>, s': Split<V>, leader: int, f: int, lo: Option<int>,
                                k: string, w: map<string, V>, rank: Rank<V>)
    requires SplitOrderly(s, leader) && SplitEnabled(s, a) && s' == SplitApply(s, a) && LeaderIsLatest(s.sys, leader, w)
    requires f != leader && !Overtakes(s, a, leader, f, k)
    requires var b := Core(a); AcceptedWrite(s.sys, b) && b.key in w ==> rank(b.key, w[b.key]) <= rank(b.key, b.value)
    requires ComesAbove(s, leader, f, lo, k, w, rank)
    ensures ComesAbove(s', leader, f, lo, k, WrittenThen(w, s.sys, Core(a)), rank)
  {
    hide SplitOrderly, SplitEnabled, SplitApply, Rising, Coming, Received, AcceptedWrite, Overtakes;
    if Arrives(a, leader, f) {
      ArrivalTakes(s, a, s', leader, f);
      var m := Queue(s.sys.net, leader, f)[0];
      ReceivedEffect(s.sys.leaf[f].store, m, a.action.order);
      DeliveredRises(lo, m, Coming(s', leader, f), k, w, rank);
    } else {
      StaysRising(s, a, s', leader, f, lo, k, w, rank);
    }
  }

  /** What is coming rises from whatever the follower holds. */
  lemma StepFromHeld<V(!new)>(s: Split<V>, a: SplitAction<V>, s': Split<V>, leader: int, f: int, k: string,
                              w: map<string, V>, rank: Rank<V>)
    requires SplitOrderly(s, leader) && SplitEnabled(s, a) && s' == SplitApply(s, a) && LeaderIsLatest(s.sys, leader, w)
    requires f in s.sys.leaf && f != leader && !Overtakes(s, a, leader, f, k)
    requires var b := Core(a); AcceptedWrite(s.sys, b) && b.key in w ==> rank(b.key, w[b.key]) <= rank(b.key, b.value)
    requires Rising(HeldRank(s.sys.leaf[f].store, k, rank), Coming(s, leader, f), k, w, rank)
    ensures f in s'.sys.leaf
    ensures Rising(HeldRank(s'.sys.leaf[f].store, k, rank), Coming(s', leader, f), k, WrittenThen(w, s.sys, Core(a)),
            rank)
  {
    hide SplitOrderly, SplitEnabled, SplitApply, Rising, Coming, Received, AcceptedWrite, Overtakes;
    var c := s.sys.leaf[f].store;
    var lo := HeldRank(c, k, rank);
    if Arrives(a, leader, f) {
      ArrivalTakes(s, a, s', leader, f);
      var m, rest := Queue(s.sys.net, leader, f)[0], Coming(s', leader, f);
      ReceivedEffect(c, m, a.action.order);
      DeliveredRises(lo, m, rest, k, w, rank);
      RisingFromLower(lo, None, rest, k, w, rank);
    } else {
      StaysRising(s, a, s', leader, f, lo, k, w, rank);
    }
  }

  // ----- Whole runs -----

  lemma {:induction false} SplitRunRises<V(!new)>(states: seq<Split<V>>, actions: seq<SplitAction<V>>, leader: int,
                                                  rank: Rank<V>, f: int, k: string, n: nat)
    requires OneLeaderSplitRun(states, actions, leader) && NothingOvertakes(states, actions, leader, f, k)
    requires RisingWrites(Systems(states), Cores(actions), rank)
    requires n < |states| && f in states[0].sys.leaf && f != leader
    ensures SplitOrderly(states[n], leader) && f in states[n].sys.leaf
    ensures var w := Written(Systems(states), Cores(actions), n);
            && LeaderIsLatest(states[n].sys, leader, w)
            && Rising(HeldRank(states[n].sys.leaf[f].store, k, rank), Coming(states[n], leader, f), k, w, rank)
    decreases n
  {
    hide Initial, OneLeader, SplitOrderly, SplitEnabled, SplitApply, Rising, RisingWrites, Overtakes, WrittenThen,
         AcceptedWrite;
    if n == 0 {
      SplitStart(states[0], leader, f);
      NothingRises<V>(k, rank);
    } else {
      SplitRunRises(states, actions, leader, rank, f, k, n - 1);
      var s, a, w := states[n - 1], actions[n - 1], Written(Systems(states), Cores(actions), n - 1);
      NextWriteRises(Systems(states), Cores(actions), rank, n - 1);
      assert !Overtakes(states[n - 1], actions[n - 1], leader, f, k);
      SplitStepKeepsOrderly(s, a, states[n], leader, w);
      StepFromHeld(s, a, states[n], leader, f, k, w, rank);
    }
  }

  lemma SplitStart<V(!new)>(s: Split<V>, leader: int, f: int)
    requires Initial(s.sys, leader) && s.held == map[] && f in s.sys.leaf
    ensures SplitOrderly(s, leader) && LeaderIsLatest(s.sys, leader, map[])
    ensures Coming(s, leader, f) == [] && s.sys.leaf[f].store.kv == map[]
  {
    InitialIsOrderly(s.sys, leader);
    EmptyStart(s.sys, leader, f);
  }

  lemma NothingRises<V>(k: string, rank: Rank<V>)
    ensures Rising<V>(None, [], k, map[], rank)
  {
  }

  lemma {:induction false} SplitRunComesAbove<V(!new)>(states: seq<Split<V>>, actions: seq<SplitAction<V>>, leader: int,
                                                       rank: Rank<V>, f: int, lo: Option<int>, k: string, m: nat,
                                                       n: nat)
    requires OneLeaderSplitRun(states, actions, leader) && NothingOvertakes(states, actions, leader, f, k)
    requires RisingWrites(Systems(states), Cores(actions), rank)
    requires m <= n < |states| && f in states[0].sys.leaf && f != leader
    requires ComesAbove(states[m], leader, f, lo, k, Written(Systems(states), Cores(actions), m), rank)
    ensures ComesAbove(states[n], leader, f, lo, k, Written(Systems(states), Cores(actions), n), rank)
    decreases n
  {
    hide Initial, OneLeader, SplitOrderly, SplitEnabled, SplitApply, Rising, RisingWrites, Overtakes, WrittenThen,
         AcceptedWrite,
         ComesAbove, LeaderIsLatest;
    if m == n {
    } else {
      SplitRunComesAbove(states, actions, leader, rank, f, lo, k, m, n - 1);
      SplitRunRises(states, actions, leader, rank, f, k, n - 1);
      NextWriteRises(Systems(states), Cores(actions), rank, n - 1);
      assert !Overtakes(states[n - 1], actions[n - 1], leader, f, k);
      StepComesAbove(states[n - 1], actions[n - 1], states[n], leader, f, lo, k,
        Written(Systems(states), Cores(actions), n - 1), rank);
    }
  }

  /** As long as no push of the key overtakes a snapshot that holds it, the follower's value never rolls back. */
  lemma NoRollbackUnlessOvertaken<V(!new)>(states: seq<Split<V>>, actions: seq<SplitAction<V>>, leader: int,
                                           rank: Rank<V>, f: int, k: string, m: nat, n: nat)
    requires OneLeaderSplitRun(states, actions, leader) && NothingOvertakes(states, actions, leader, f, k)
    requires RisingWrites(Systems(states), Cores(actions), rank)
    requires m <= n < |states| && f in states[0].sys.leaf && f != leader
    requires f in states[m].sys.leaf && f in states[n].sys.leaf
    requires k in states[m].sys.leaf[f].store.kv && k in states[n].sys.leaf[f].store.kv
    ensures rank(k, states[m].sys.leaf[f].store.kv[k]) <= rank(k, states[n].sys.leaf[f].store.kv[k])
  {
    hide OneLeaderSplitRun, NothingOvertakes, SplitOrderly, LeaderIsLatest, Rising, RisingWrites, Coming;
    var lo := HeldRank(states[m].sys.leaf[f].store, k, rank);
    SplitRunRises(states, actions, leader, rank, f, k, m);
    HeldIsAtLeast(states[m].sys.leaf[f].store, k, rank);
    SplitRunComesAbove(states, actions, leader, rank, f, lo, k, m, n);
  }
}
