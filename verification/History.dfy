/** A follower goes through the leader's history of writes in one direction only. */
module History {
  import opened Lists
  import opened Leaf
  import opened Cluster
  import opened Replication
  import opened NoRollback
  import opened Erasure

  // ----- Dated runs -----

  /** A dated value is what the write of its date wrote. */
  ghost predicate Genuine<V>(states: seq<System<Dated<V>>>, actions: seq<Action<Dated<V>>>, k: string, v: Dated<V>)
    requires |states| == |actions| + 1
  {
    && 0 <= v.step < |actions| && AcceptedWrite(states[v.step], actions[v.step])
    && actions[v.step].key == k && actions[v.step].value == v
  }

  lemma {:induction false} WrittenIsGenuine<V>(states: seq<System<Dated<V>>>, actions: seq<Action<Dated<V>>>, n: nat,
                                               k: string)
    requires |states| == |actions| + 1 && n <= |actions| && DatedRun(states, actions)
    requires k in Written(states, actions, n)
    ensures Genuine(states, actions, k, Written(states, actions, n)[k]) && Written(states, actions, n)[k].step < n
    decreases n
  {
    if n == 0 {
    } else if !(AcceptedWrite(states[n - 1], actions[n - 1]) && actions[n - 1].key == k) {
      WrittenIsGenuine(states, actions, n - 1, k);
    }
  }

  /** The write that a follower's value of a key comes from is never replaced by an earlier one. */
  lemma HistoryIndexNeverDecreases<V(!new)>(states: seq<System<Dated<V>>>, actions: seq<Action<Dated<V>>>, leader: int,
                                            f: int, k: string, m: nat, n: nat)
    requires OneLeaderRun(states, actions, leader) && DatedRun(states, actions) && m <= n < |states|
    requires f in states[0].leaf && f != leader && f in states[m].leaf && f in states[n].leaf
    requires k in states[m].leaf[f].store.kv && k in states[n].leaf[f].store.kv
    ensures states[m].leaf[f].store.kv[k].step <= states[n].leaf[f].store.kv[k].step
  {
    DatesRise(states, actions);
    ReplicaNeverRollsBack(states, actions, leader, DateOf<V>, f, k, m, n);
  }

  function DateOf<V>(key: string, v: Dated<V>): int {
    v.step
  }

  lemma DatesRise<V(!new)>(states: seq<System<Dated<V>>>, actions: seq<Action<Dated<V>>>)
    requires |states| == |actions| + 1 && DatedRun(states, actions)
    ensures RisingWrites(states, actions, DateOf<V>)
  {
    forall t | 0 <= t < |actions| && AcceptedWrite(states[t], actions[t])
      && actions[t].key in Written(states, actions, t)
      ensures DateOf(actions[t].key, Written(states, actions, t)[actions[t].key]) <=
              DateOf(actions[t].key, actions[t].value)
    {
      WrittenIsGenuine(states, actions, t, actions[t].key);
    }
  }

  lemma {:induction false} RisingEnds<V>(lo: Option<int>, d: seq<Message<V>>, k: string, w: map<string, V>,
                                         rank: Rank<V>)
    requires Rising(lo, d, k, w, rank) && lo.Some?
    ensures k in w && lo.value <= rank(k, w[k])
    decreases |d|
  {
    if d == [] {
    } else {
      match Offer(d[0], k)
      case None => RisingEnds(lo, d[1..], k, w, rank);
      case Some(v) => RisingEnds(Some(rank(k, v)), d[1..], k, w, rank);
    }
  }

  /** Whatever a follower holds is what an earlier accepted write wrote. */
  lemma HeldIsGenuine<V(!new)>(states: seq<System<Dated<V>>>, actions: seq<Action<Dated<V>>>, leader: int, f: int,
                               k: string, n: nat)
    requires OneLeaderRun(states, actions, leader) && DatedRun(states, actions) && n < |states|
    requires f in states[0].leaf && f != leader && f in states[n].leaf && k in states[n].leaf[f].store.kv
    ensures Genuine(states, actions, k, states[n].leaf[f].store.kv[k]) && states[n].leaf[f].store.kv[k].step < n
  {
    hide OneLeader, Initial, Rising, Genuine, RisingWrites;
    var c, d, w := states[n].leaf[f].store, Data(Queue(states[n].net, leader, f)), Written(states, actions, n);
    DatesRise(states, actions);
    LinksRise(states, actions, leader, DateOf<V>, f, k, n);
    RisingEnds(HeldRank(c, k, DateOf<V>), d, k, w, DateOf<V>);
    var rank: Rank<Dated<V>> := (key, v) => if Genuine(states, actions, key, v) then 0 else 1;
    GenuineRises(states, actions, rank);
    LinksRise(states, actions, leader, rank, f, k, n);
    RisingEnds(HeldRank(c, k, rank), d, k, w, rank);
    WrittenIsGenuine(states, actions, n, k);
  }

  lemma GenuineRises<V(!new)>(states: seq<System<Dated<V>>>, actions: seq<Action<Dated<V>>>, rank: Rank<Dated<V>>)
    requires |states| == |actions| + 1 && DatedRun(states, actions)
    requires forall key, v :: rank(key, v) == if Genuine(states, actions, key, v) then 0 else 1
    ensures RisingWrites(states, actions, rank)
  {
    forall t | 0 <= t < |actions| && AcceptedWrite(states[t], actions[t])
      && actions[t].key in Written(states, actions, t)
      ensures rank(actions[t].key, Written(states, actions, t)[actions[t].key]) <=
              rank(actions[t].key, actions[t].value)
    {
      assert Genuine(states, actions, actions[t].key, actions[t].value);
      WrittenIsGenuine(states, actions, t, actions[t].key);
    }
  }

  // ----- All runs -----

  /** The value of k that node f holds in state n is the one accepted at this step. */
  ghost predicate CameFrom<V>(states: seq<System<V>>, actions: seq<Action<V>>, f: int, k: string, n: nat, step: int)
    requires n < |states| == |actions| + 1 && Holds(states[n], f, k)
  {
    && 0 <= step < n && AcceptedWrite(states[step], actions[step])
    && actions[step].key == k && actions[step].value == states[n].leaf[f].store.kv[k]
  }

  lemma ErasedHolds<V(!new)>(d: System<Dated<V>>, f: int, k: string)
    ensures Holds(EraseSystem(d), f, k) <==> Holds(d, f, k)
    ensures Holds(d, f, k) ==> EraseSystem(d).leaf[f].store.kv[k] == d.leaf[f].store.kv[k].value
  {
  }

  lemma DatedLeader<V(!new)>(dated: seq<System<Dated<V>>>, datedActions: seq<Action<Dated<V>>>, states: seq<System<V>>,
                             actions: seq<Action<V>>, leader: int)
    requires Dates(dated, datedActions, states, actions) && OneLeaderRun(states, actions, leader)
    requires IsRun(dated, datedActions) && Initial(dated[0], leader)
    ensures OneLeaderRun(dated, datedActions, leader)
  {
    hide Initial, Enabled, Apply, EraseNet, EraseCache;
    forall k | 0 <= k < |dated|
      ensures OneLeader(dated[k], leader)
    {
      assert OneLeader(states[k], leader) && EraseSystem(dated[k]) == states[k];
      forall i | i in dated[k].leaf
        ensures dated[k].leaf[i].currentLeaderId == leader
      {
        assert states[k].leaf[i] == EraseLeaf(dated[k].leaf[i]);
      }
    }
  }

  lemma ErasedWrite<V(!new)>(d: System<Dated<V>>, a: Action<Dated<V>>)
    ensures AcceptedWrite(EraseSystem(d), EraseAction(a)) <==> AcceptedWrite(d, a)
    ensures a.Write? ==> EraseAction(a).key == a.key && EraseAction(a).value == a.value.value
  {
  }

  lemma DatedOrigin<V(!new)>(dated: seq<System<Dated<V>>>, datedActions: seq<Action<Dated<V>>>, states: seq<System<V>>,
                             actions: seq<Action<V>>, leader: int, f: int, k: string, n: nat)
    requires Dates(dated, datedActions, states, actions) && OneLeaderRun(dated, datedActions, leader)
    requires DatedRun(dated, datedActions) && n < |states| && Holds(dated[n], f, k) && f in dated[0].leaf && f != leader
    ensures Holds(states[n], f, k) && CameFrom(states, actions, f, k, n, dated[n].leaf[f].store.kv[k].step)
  {
    hide OneLeaderRun, DatedRun, EraseSystem, EraseAction;
    HeldIsGenuine(dated, datedActions, leader, f, k, n);
    ErasedHolds(dated[n], f, k);
    var step := dated[n].leaf[f].store.kv[k].step;
    ErasedWrite(dated[step], datedActions[step]);
    assert EraseSystem(dated[step]) == states[step] && EraseAction(datedActions[step]) == actions[step];
    assert EraseSystem(dated[n]) == states[n];
  }

  /** In every run under one leader, what a follower holds for a key has been accepted by the leader, and the
      place of that write in the run never goes back. */
  lemma FollowerHistoryNeverRollsBack<V(!new)>(states: seq<System<V>>, actions: seq<Action<V>>, leader: int, f: int,
                                               k: string)
    returns (origin: seq<int>)
    requires OneLeaderRun(states, actions, leader) && f in states[0].leaf && f != leader
    ensures |origin| == |states|
    ensures forall n :: 0 <= n < |states| && Holds(states[n], f, k) ==> CameFrom(states, actions, f, k, n, origin[n])
    ensures forall m, n :: 0 <= m <= n < |states| && Holds(states[m], f, k) && Holds(states[n], f, k) ==>
            origin[m] <= origin[n]
  {
    hide OneLeader, Initial, Enabled, Apply, EraseSystem, EraseAction, AcceptedWrite, CameFrom;
    var dated, datedActions := EveryRunHasDates(states, actions, leader);
    DatedLeader(dated, datedActions, states, actions, leader);
    ErasedMember(dated[0], f);
    origin := seq(|states|, n requires 0 <= n < |states| => if Holds(dated[n], f, k)
              then dated[n].leaf[f].store.kv[k].step else 0);
    forall n | 0 <= n < |states| && Holds(states[n], f, k)
      ensures CameFrom(states, actions, f, k, n, origin[n])
    {
      ErasedHolds(dated[n], f, k);
      DatedOrigin(dated, datedActions, states, actions, leader, f, k, n);
    }
    forall m, n | 0 <= m <= n < |states| && Holds(states[m], f, k) && Holds(states[n], f, k)
      ensures origin[m] <= origin[n]
    {
      ErasedHolds(dated[m], f, k);
      ErasedHolds(dated[n], f, k);
      HistoryIndexNeverDecreases(dated, datedActions, leader, f, k, m, n);
    }
  }

  lemma ErasedMember<V(!new)>(d: System<Dated<V>>, i: int)
    ensures i in EraseSystem(d).leaf <==> i in d.leaf
  {
  }
}
