/** While everything written fits in the caches nothing is evicted: what a follower and its link hold, read as
    maps, and how each step changes them. */
module Convergence {
  import opened Lists
  import opened Lru
  import opened LruStore
  import opened Leaf
  import opened Cluster
  import opened Replication

  // ----- Loading without evictions -----

  lemma {:induction false} LoadWithRoom<V(!new)>(c: Cache<V>, entries: seq<(string, V)>, room: set<string>)
    requires Lru.Valid(c) && NoDuplicates(Keys(entries))
    requires c.kv.Keys <= room && (forall i :: 0 <= i < |entries| ==> entries[i].0 in room) && |room| <= c.capacity
    ensures Load(c, entries).kv == c.kv + AsMap(entries)
    ensures Load(c, entries).kv.Keys <= room
  {
    if entries == [] {
    } else {
      hide Insert, Lru.Valid, NoDuplicates;
      var before, k, v := Init(entries), Last(entries).0, Last(entries).1;
      KeysOfInit(entries);
      assert forall i :: 0 <= i < |before| ==> before[i] == entries[i];
      LoadWithRoom(c, before, room);
      LoadOrder(c, before);
      InsertWithRoom(Load(c, before), k, v, room);
      UpdateRight(c.kv, AsMap(before), k, v);
    }
  }

  lemma UpdateRight<V(!new)>(a: map<string, V>, b: map<string, V>, k: string, v: V)
    ensures (a + b)[k := v] == a + b[k := v]
  {
  }

  // ----- Replaying a link -----

  function Merge<V>(m: map<string, V>, d: Message<V>): map<string, V> {
    match d
    case Push(_, _, k, v) => m[k := v]
    case SyncResponse(_, _, _, _, payload) => m + PayloadMap(payload)
    case _ => m
  }

  /** The map a follower will hold once it has consumed the data on the link. */
  function Replay<V>(m: map<string, V>, d: seq<Message<V>>): map<string, V> {
    if d == [] then m else Merge(Replay(m, Init(d)), Last(d))
  }

  function Brought<V>(d: Message<V>): set<string> {
    match d
    case Push(_, _, k, _) => {k}
    case SyncResponse(_, _, _, _, payload) => PayloadMap(payload).Keys
    case _ => {}
  }

  lemma {:induction false} ReplayFirst<V>(m: map<string, V>, first: Message<V>, rest: seq<Message<V>>)
    ensures Replay(m, [first] + rest) == Replay(Merge(m, first), rest)
  {
    if rest == [] {
      assert [first] + rest == [first] && Init([first]) == [];
    } else {
      assert Init([first] + rest) == [first] + Init(rest);
      ReplayFirst(m, first, Init(rest));
    }
  }

  ghost predicate BringsOnly<V>(d: seq<Message<V>>, room: set<string>) {
    forall i :: 0 <= i < |d| ==> Brought(d[i]) <= room
  }

  lemma {:induction false} ReplayKeys<V>(m: map<string, V>, d: seq<Message<V>>, room: set<string>)
    requires m.Keys <= room && BringsOnly(d, room)
    ensures Replay(m, d).Keys <= room
  {
    if d == [] {
    } else {
      assert forall i :: 0 <= i < |d| - 1 ==> Init(d)[i] == d[i];
      ReplayKeys(m, Init(d), room);
    }
  }

  /** A follower with room merges exactly what it receives. */
  lemma ReceivedWithRoom<V(!new)>(c: Cache<V>, m: Message<V>, order: seq<(string, V)>, room: set<string>)
    requires Lru.Valid(c) && (m.SyncResponse? ==> Enumerates(order, PayloadMap(m.payload)))
    requires c.kv.Keys <= room && Brought(m) <= room && |room| <= c.capacity
    ensures Received(c, m, order).kv == Merge(c.kv, m)
  {
    match m
    case Push(_, _, k, v) => InsertWithRoom(c, k, v, room);
    case SyncResponse(_, _, _, _, payload) =>
      EnumerationIsBatch(order, PayloadMap(payload));
      assert forall i :: 0 <= i < |order| ==> order[i].0 in PayloadMap(payload);
      LoadWithRoom(c, order, room);
    case _ =>
  }

  // ----- Keys stay within what was written -----

  lemma {:induction false} WrittenGrows<V>(states: seq<System<V>>, actions: seq<Action<V>>, m: nat, n: nat)
    requires |states| == |actions| + 1 && m <= n <= |actions|
    ensures Written(states, actions, m).Keys <= Written(states, actions, n).Keys
    decreases n
  {
    if m == n {
    } else {
      WrittenGrows(states, actions, m, n - 1);
    }
  }

  /** All that the feeding node and the follower hold, and all that is in flight between them, is of these keys. */
  ghost predicate Within<V>(s: System<V>, p: int, f: int, room: set<string>) {
    && p in s.leaf && f in s.leaf
    && s.leaf[p].store.kv.Keys <= room && s.leaf[f].store.kv.Keys <= room
    && BringsOnly(Data(Queue(s.net, p, f)), room)
  }

  /** `room` is all that will ever be written, and it fits in both caches. */
  ghost predicate Fits<V>(s: System<V>, leader: int, f: int, room: set<string>) {
    leader in s.leaf && f in s.leaf
    && |room| <= s.leaf[leader].store.capacity && |room| <= s.leaf[f].store.capacity
  }

  lemma LeaderAfterStep<V(!new)>(s: System<V>, a: Action<V>, s': System<V>, p: int, f: int, room: set<string>)
    requires Feeds(s, p, f) && Enabled(s, a) && s' == Apply(s, a) && Fits(s, p, f, room)
    requires WrittenThen(s.leaf[p].store.kv, s, a).Keys <= room
    ensures p in s'.leaf && s'.leaf[p].store.kv == WrittenThen(s.leaf[p].store.kv, s, a)
    ensures s'.leaf[p].store.capacity == s.leaf[p].store.capacity
  {
    var watched :| Static(s, watched);
    FeedsFacts(s, p, f);
    StoreAfter(s, a, watched, p);
    StoreThenValid(s, a, p);
    LeaderStore(s, a, p);
    if AcceptedWrite(s, a) {
      InsertWithRoom(s.leaf[p].store, a.key, a.value, room);
    }
  }

  /** What is sent brings only keys that the feeding node holds; an answer puts its whole map over any other. */
  lemma FedBrings<V(!new)>(s: System<V>, a: Action<V>, p: int, f: int)
    requires Feeds(s, p, f) && Enabled(s, a)
    ensures p in s.leaf && BringsOnly(Fed(s, a, p, f), WrittenThen(s.leaf[p].store.kv, s, a).Keys)
    ensures forall m: map<string, V> :: !AcceptedWrite(s, a) && Fed(s, a, p, f) != [] ==>
                                          Merge(m, Fed(s, a, p, f)[0]) == m + s.leaf[p].store.kv
  {
    FeedsFacts(s, p, f);
    hide Feeds, Data;
    if !AcceptedWrite(s, a) && Fed(s, a, p, f) != [] {
      FedSnapshot(s, a, p, f);
    }
  }

  lemma FedSnapshot<V(!new)>(s: System<V>, a: Action<V>, p: int, f: int)
    requires p in s.leaf && Enabled(s, a) && !AcceptedWrite(s, a) && Fed(s, a, p, f) != []
    ensures Fed(s, a, p, f)[0].SyncResponse?
            && PayloadMap(Fed(s, a, p, f)[0].payload) == s.leaf[p].store.kv
  {
    HeadOrder(s, a);
    PayloadRoundTrip(s.leaf[p].store.kv, a.order, s.now);
  }

  ghost predicate LosesOne<T>(d: seq<T>, d': seq<T>) {
    exists i :: 0 <= i < |d| && d' == d[..i] + d[i + 1..]
  }

  /** How the follower and its link change in a step, as maps. */
  ghost predicate FollowerStep<V>(s: System<V>, a: Action<V>, s': System<V>, leader: int, f: int)
    requires leader in s.leaf && f in s.leaf && f in s'.leaf
  {
    var d, d' := Data(Queue(s.net, leader, f)), Data(Queue(s'.net, leader, f));
    var m, m' := s.leaf[f].store.kv, s'.leaf[f].store.kv;
    || (d != [] && d' == d[1..] && m' == Merge(m, d[0]) && !AcceptedWrite(s, a))
    || (d' == d + Fed(s, a, leader, f) && m' == m)
    || (a.Drop? && a.sender == leader && a.node == f && m' == m && LosesOne(d, d'))
  }

  lemma FollowerAfterStep<V(!new)>(s: System<V>, a: Action<V>, s': System<V>, p: int, f: int, room: set<string>)
    requires Feeds(s, p, f) && Enabled(s, a) && s' == Apply(s, a) && Fits(s, p, f, room) && Within(s, p, f, room)
    ensures f in s'.leaf && FollowerStep(s, a, s', p, f)
    ensures s'.leaf[f].store.capacity == s.leaf[f].store.capacity
  {
    hide Feeds, Data, StoreThen, Fed, Apply, Enabled, Received, DataOf, Merge;
    FeedsFacts(s, p, f);
    FollowerFacts(s, a, s', p, f);
    var d, d' := Data(Queue(s.net, p, f)), Data(Queue(s'.net, p, f));
    assert d + [] == d;
    if a.Deliver? && a.sender == p && a.node == f {
      DeliveredMerges(s.leaf[f].store, Queue(s.net, p, f)[0], a.order, d, d', room);
    } else if a.Drop? && a.sender == p && a.node == f {
      var q, i := Queue(s.net, p, f), a.position;
      LostOne(Data(q[..i]), q[i], Data(q[i + 1..]));
    }
  }

  lemma DeliveredMerges<V(!new)>(c: Cache<V>, m: Message<V>, order: seq<(string, V)>, d: seq<Message<V>>,
                                 d': seq<Message<V>>, room: set<string>)
    requires Lru.Valid(c) && (m.SyncResponse? ==> Enumerates(order, PayloadMap(m.payload)))
    requires c.kv.Keys <= room && BringsOnly(d, room) && |room| <= c.capacity && d == DataOf(m) + d'
    ensures || (d == d' && Received(c, m, order).kv == c.kv)
            || (d != [] && d' == d[1..] && Received(c, m, order).kv == Merge(c.kv, d[0]))
  {
    if DataOf(m) == [] {
      assert DataOf(m) + d' == d';
    } else {
      assert d[1..] == d' && d[0] == m;
      assert Brought(d[0]) <= room;
      ReceivedWithRoom(c, m, order, room);
    }
  }

  lemma LostOne<V>(a: seq<Message<V>>, m: Message<V>, b: seq<Message<V>>)
    ensures DataOf(m) == [] ==> a + DataOf(m) + b == a + b
    ensures DataOf(m) != [] ==> LosesOne(a + DataOf(m) + b, a + b)
  {
    if DataOf(m) != [] {
      MiddleLeftOut(a, m, b);
      assert |a| < |a + DataOf(m) + b|;
    } else {
      assert a + [] == a;
    }
  }

  /** A step keeps everything within the keys that have been written by then. */
  lemma StepKeepsWithin<V(!new)>(s: System<V>, a: Action<V>, s': System<V>, p: int, f: int, room: set<string>,
                                 all: set<string>)
    requires Feeds(s, p, f) && Enabled(s, a) && s' == Apply(s, a) && Fits(s, p, f, all) && Within(s, p, f, room)
    requires room <= all && (AcceptedWrite(s, a) ==> a.key in all)
    ensures Within(s', p, f, if AcceptedWrite(s, a) then room + {a.key} else room) && Fits(s', p, f, all)
  {
    hide Feeds, Data, Fed, Apply, Enabled;
    LeaderAfterStep(s, a, s', p, f, all);
    FollowerAfterStep(s, a, s', p, f, all);
    FedBrings(s, a, p, f);
    var d, d' := Data(Queue(s.net, p, f)), Data(Queue(s'.net, p, f));
    assert forall i :: 0 <= i < |d| ==> Brought(d[i]) <= room;
    if d != [] && d' == d[1..] {
      assert Brought(d[0]) <= room;
    }
  }

  // ----- One leader -----

  /** The leader holds exactly the latest values, and neither the follower nor its link knows any other key. */
  ghost predicate Covered<V>(s: System<V>, leader: int, f: int, w: map<string, V>) {
    Within(s, leader, f, w.Keys) && s.leaf[leader].store.kv == w
  }

  lemma StepKeepsCovered<V(!new)>(s: System<V>, a: Action<V>, s': System<V>, leader: int, f: int, w: map<string, V>,
                                  room: set<string>)
    requires Orderly(s, leader) && Enabled(s, a) && s' == Apply(s, a) && Fits(s, leader, f, room) && f != leader
    requires Covered(s, leader, f, w) && WrittenThen(w, s, a).Keys <= room
    ensures Covered(s', leader, f, WrittenThen(w, s, a)) && Fits(s', leader, f, room)
  {
    hide Orderly, Feeds, Data, Apply, Enabled;
    OrderlyFeeds(s, leader, f);
    assert w.Keys <= WrittenThen(w, s, a).Keys;
    LeaderAfterStep(s, a, s', leader, f, room);
    StepKeepsWithin(s, a, s', leader, f, w.Keys, room);
    assert WrittenThen(w, s, a).Keys == if AcceptedWrite(s, a) then w.Keys + {a.key} else w.Keys;
  }
}
