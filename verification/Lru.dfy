/** The LRU engine as a value: what put, get and remove do, and what whole traces of them keep. */
module Lru {
  import opened Lists

  /** Recency list (most recent first) and stored pairs of one engine. */
  datatype Cache<V> = Cache(capacity: nat, order: seq<string>, kv: map<string, V>)

  datatype Op<V> = Put(key: string, value: V) | Get(key: string) | Remove(key: string)

  ghost predicate Valid<V>(c: Cache<V>) {
    && c.capacity >= 1
    && NoDuplicates(c.order)
    && (forall k :: k in c.order <==> k in c.kv)
    && |c.order| <= c.capacity
  }

  function Empty<V>(capacity: nat): Cache<V> {
    Cache(capacity, [], map[])
  }

  /** A full cache first drops the key at the end of the list. */
  function Evicted<V>(c: Cache<V>): Cache<V> {
    if |c.order| >= c.capacity && c.order != []
    then c.(order := Init(c.order), kv := c.kv - {Last(c.order)})
    else c
  }

  function Insert<V>(c: Cache<V>, k: string, v: V): Cache<V> {
    if k in c.kv then c.(order := [k] + Without(c.order, k), kv := c.kv[k := v])
    else var e := Evicted(c); e.(order := [k] + e.order, kv := e.kv[k := v])
  }

  function Touch<V>(c: Cache<V>, k: string): Cache<V> {
    if k in c.kv then c.(order := [k] + Without(c.order, k)) else c
  }

  function Lookup<V>(c: Cache<V>, k: string): Option<V> {
    if k in c.kv then Some(c.kv[k]) else None
  }

  function Delete<V>(c: Cache<V>, k: string): Cache<V> {
    if k in c.kv then c.(order := Without(c.order, k), kv := c.kv - {k}) else c
  }

  function Step<V>(c: Cache<V>, op: Op<V>): Cache<V> {
    match op
    case Put(k, v) => Insert(c, k, v)
    case Get(k) => Touch(c, k)
    case Remove(k) => Delete(c, k)
  }

  function Run<V>(c: Cache<V>, ops: seq<Op<V>>): Cache<V> {
    if ops == [] then c else Step(Run(c, Init(ops)), Last(ops))
  }

  lemma {:induction false} EvictEffect<V>(c: Cache<V>)
    requires Valid(c)
    ensures Valid(Evicted(c)) && Evicted(c).capacity == c.capacity
    ensures Evicted(c).order == Take(c.order, c.capacity - 1)
    ensures forall x :: x in Evicted(c).kv ==> x in c.kv && Evicted(c).kv[x] == c.kv[x]
  {
    if |c.order| >= c.capacity {
      InitMembers(c.order);
    } else {
      TakeAll(c.order, c.capacity - 1);
    }
  }

  /** The whole effect of a put: k moves or goes to the front, and only the first
      `capacity` entries of the resulting list survive, with their values. */
  lemma {:induction false} InsertEffect<V>(c: Cache<V>, k: string, v: V)
    requires Valid(c)
    ensures Valid(Insert(c, k, v)) && Insert(c, k, v).capacity == c.capacity
    ensures Insert(c, k, v).order == Take([k] + Without(c.order, k), c.capacity)
    ensures forall x :: x in Insert(c, k, v).kv ==>
                          if x == k then Insert(c, k, v).kv[x] == v else x in c.kv && Insert(c, k, v).kv[x] == c.kv[x]
    ensures k in Insert(c, k, v).kv
  {
    if k in c.kv {
      assert k in c.order;
      MovedToFront(c.order, k);
      TakeAll([k] + Without(c.order, k), c.capacity);
    } else {
      assert k !in c.order;
      WithoutAbsent(c.order, k);
      EvictEffect(c);
      TakeCons(k, c.order, c.capacity);
      MovedToFront(Evicted(c).order, k);
      assert k !in Evicted(c).order;
      WithoutAbsent(Evicted(c).order, k);
    }
  }

  lemma {:induction false} StepKeepsValid<V>(c: Cache<V>, op: Op<V>)
    requires Valid(c)
    ensures Valid(Step(c, op)) && Step(c, op).capacity == c.capacity
  {
    assert op.key in c.kv ==> op.key in c.order;
    match op
    case Put(k, v) => InsertEffect(c, k, v);
    case Get(k) => MovedToFront(c.order, k);
    case Remove(k) =>
      WithoutNoDuplicates(c.order, k);
      WithoutMembers(c.order, k);
  }

  lemma {:induction false} RunKeepsValid<V>(c: Cache<V>, ops: seq<Op<V>>)
    requires Valid(c)
    ensures Valid(Run(c, ops)) && Run(c, ops).capacity == c.capacity
  {
    if ops == [] {
    } else {
      RunKeepsValid(c, Init(ops));
      StepKeepsValid(Run(c, Init(ops)), Last(ops));
    }
  }

  // ----- The last value put -----

  /** The value of the latest put of k that no later removal of k undoes. */
  function LastPut<V>(ops: seq<Op<V>>, k: string): Option<V> {
    if ops == [] then None
    else match Last(ops)
      case Put(x, v) => if x == k then Some(v) else LastPut(Init(ops), k)
      case Remove(x) => if x == k then None else LastPut(Init(ops), k)
      case Get(_) => LastPut(Init(ops), k)
  }

  lemma {:induction false} HitReturnsLastPut<V>(capacity: nat, ops: seq<Op<V>>, k: string)
    requires capacity >= 1
    ensures var hit := Lookup(Run(Empty<V>(capacity), ops), k);
            hit.Some? ==> hit == LastPut(ops, k)
  {
    if ops != [] {
      var c := Run(Empty<V>(capacity), Init(ops));
      RunKeepsValid(Empty<V>(capacity), Init(ops));
      HitReturnsLastPut<V>(capacity, Init(ops), k);
      match Last(ops)
      case Put(x, v) => InsertEffect(c, x, v);
      case Get(x) =>
      case Remove(x) =>
    }
  }

  // ----- Without evictions a cache is just a map -----

  lemma SizeOfOrder<V(!new)>(c: Cache<V>)
    requires Valid(c)
    ensures |c.order| == |c.kv|
  {
    NoDuplicatesLength(c.order);
    assert Elements(c.order) == c.kv.Keys;
  }

  lemma InsertWithRoom<V(!new)>(c: Cache<V>, k: string, v: V, room: set<string>)
    requires Valid(c) && c.kv.Keys <= room && k in room && |room| <= c.capacity
    ensures Insert(c, k, v).kv == c.kv[k := v]
  {
    if k !in c.kv {
      SizeOfOrder(c);
      SmallerSubset(c.kv.Keys + {k}, room);
      assert |c.kv.Keys + {k}| == |c.kv.Keys| + 1;
    }
  }

  lemma SmallerSubset<T(!new)>(a: set<T>, b: set<T>)
    requires a <= b
    ensures |a| <= |b|
  {
    assert b == a + (b - a);
  }

  /** A removal takes out the key and spares all others: their values, and the order they are listed in. */
  lemma DeleteEffect<V>(c: Cache<V>, k: string)
    requires Valid(c)
    ensures Delete(c, k).kv == c.kv - {k} && Delete(c, k).capacity == c.capacity
    ensures k !in c.order ==> Delete(c, k) == c
    ensures forall i :: 0 <= i < |c.order| && c.order[i] == k ==> Delete(c, k).order == c.order[..i] + c.order[i + 1..]
  {
    hide NoDuplicates, Without;
    if k in c.order {
      assert k in c.kv;
      forall i | 0 <= i < |c.order| && c.order[i] == k
        ensures Delete(c, k).order == c.order[..i] + c.order[i + 1..]
      {
        WithoutAt(c.order, i);
      }
    } else {
      assert k !in c.kv;
    }
  }

  /** The keys that a trace puts. */
  function PutKeys<V>(ops: seq<Op<V>>): set<string> {
    if ops == [] then {}
    else PutKeys(Init(ops)) + if Last(ops).Put? then {Last(ops).key} else {}
  }

  /** The store is the map of the last values put, and its keys are among those put. */
  ghost predicate HoldsLastPuts<V>(c: Cache<V>, ops: seq<Op<V>>) {
    c.kv.Keys <= PutKeys(ops) && forall k :: Lookup(c, k) == LastPut(ops, k)
  }

  lemma {:induction false} RoomyRun<V(!new)>(capacity: nat, ops: seq<Op<V>>, room: set<string>)
    requires capacity >= 1 && PutKeys(ops) <= room && |room| <= capacity
    ensures HoldsLastPuts(Run(Empty<V>(capacity), ops), ops)
  {
    if ops == [] {
    } else {
      var c, op := Run(Empty<V>(capacity), Init(ops)), Last(ops);
      RoomyRun<V>(capacity, Init(ops), room);
      RunKeepsValid(Empty<V>(capacity), Init(ops));
      match op
      case Put(k, v) => InsertWithRoom(c, k, v, room);
      case Get(_) =>
      case Remove(k) => DeleteEffect(c, k);
    }
  }

  /** A store that has room for every key ever put forgets nothing: after any trace a lookup, hit or miss, gives
      the last value put for the key and not removed since. */
  lemma RoomyStoreIsMap<V(!new)>(capacity: nat, ops: seq<Op<V>>, k: string)
    requires capacity >= 1 && |PutKeys(ops)| <= capacity
    ensures Lookup(Run(Empty<V>(capacity), ops), k) == LastPut(ops, k)
  {
    RoomyRun<V>(capacity, ops, PutKeys(ops));
  }

  // ----- Traces without removals: the first `capacity` entries of the move-to-front list -----

  predicate RemoveFree<V>(ops: seq<Op<V>>) {
    forall i :: 0 <= i < |ops| ==> !ops[i].Remove?
  }

  /** The keys touched by a trace in order: every put, and every get that hits. */
  function Touches<V>(capacity: nat, ops: seq<Op<V>>): seq<string> {
    if ops == [] then []
    else
      var before := Touches(capacity, Init(ops));
      var op := Last(ops);
      if op.Get? && op.key !in Run(Empty<V>(capacity), Init(ops)).kv then before else before + [op.key]
  }

  /** The unbounded move-to-front list of a sequence of touches. */
  function MoveToFront(touches: seq<string>): seq<string> {
    if touches == [] then [] else [Last(touches)] + Without(MoveToFront(Init(touches)), Last(touches))
  }

  lemma {:induction false} MoveToFrontNoDuplicates(touches: seq<string>)
    ensures NoDuplicates(MoveToFront(touches))
  {
    if touches == [] {
    } else {
      MoveToFrontNoDuplicates(Init(touches));
      MovedToFront(MoveToFront(Init(touches)), Last(touches));
    }
  }

  /** The k-th entry of the move-to-front list was last touched before every entry in front of it. */
  lemma {:induction false} MoveToFrontOrder(touches: seq<string>, a: nat, b: nat, i: nat)
    requires a < b < |MoveToFront(touches)|
    requires i < |touches| && touches[i] == MoveToFront(touches)[b]
    ensures exists j :: i < j < |touches| && touches[j] == MoveToFront(touches)[a]
  {
    var l, m, t := MoveToFront(touches), MoveToFront(Init(touches)), Last(touches);
    MoveToFrontNoDuplicates(touches);
    assert l[0] == t && l[b] != t;
    if a == 0 {
      assert touches[|touches| - 1] == l[a];
    } else {
      assert l[a] == Without(m, t)[a - 1] && l[b] == Without(m, t)[b - 1];
      var a', b' := WithoutKeepsOrder(m, t, a - 1, b - 1);
      assert Init(touches)[i] == touches[i];
      MoveToFrontOrder(Init(touches), a', b', i);
      var j :| i < j < |Init(touches)| && Init(touches)[j] == m[a'];
      assert touches[j] == l[a];
    }
  }

  lemma {:induction false} RemoveFreeTraceIsMoveToFront<V>(capacity: nat, ops: seq<Op<V>>)
    requires capacity >= 1 && RemoveFree(ops)
    ensures Run(Empty<V>(capacity), ops).order == Take(MoveToFront(Touches(capacity, ops)), capacity)
  {
    if ops != [] {
      var c, op := Run(Empty<V>(capacity), Init(ops)), Last(ops);
      var m := MoveToFront(Touches(capacity, Init(ops)));
      RunKeepsValid(Empty<V>(capacity), Init(ops));
      RemoveFreeTraceIsMoveToFront<V>(capacity, Init(ops));
      MoveToFrontNoDuplicates(Touches(capacity, Init(ops)));
      if op.Put? || op.key in c.kv {
        assert Init(Touches(capacity, ops)) == Touches(capacity, Init(ops));
        CutThenMove(m, op.key, capacity);
        if op.Put? {
          InsertEffect(c, op.key, op.value);
        } else {
          assert op.key in c.order;
          WithoutNoDuplicates(c.order, op.key);
          assert Take([op.key] + Without(c.order, op.key), capacity) == [op.key] + Without(c.order, op.key);
        }
      }
    }
  }

  // ----- Capacity inclusion -----

  /** Everything the smaller cache holds, the larger one holds with the same value and in the same order. */
  ghost predicate Included<V>(small: Cache<V>, large: Cache<V>) {
    && IsSubsequence(small.order, large.order)
    && small.capacity - |small.order| <= large.capacity - |large.order|
    && forall k :: k in small.kv ==> k in large.kv && small.kv[k] == large.kv[k]
  }

  /** Moving k to the front of both lists and cutting each to its capacity keeps the inclusion. */
  lemma {:induction false} MoveKeepsInclusion(s: seq<string>, l: seq<string>, k: string, small: nat, large: nat)
    requires NoDuplicates(s) && NoDuplicates(l) && IsSubsequence(s, l)
    requires 1 <= small && |s| <= small && |l| <= large && small - |s| <= large - |l|
    ensures var s', l' := Take([k] + Without(s, k), small), Take([k] + Without(l, k), large);
            IsSubsequence(s', l') && small - |s'| <= large - |l'|
  {
    hide IsSubsequence, NoDuplicates;
    var a, b := Without(s, k), Without(l, k);
    SubsequenceWithout(s, l, k);
    WithoutNoDuplicates(s, k);
    WithoutNoDuplicates(l, k);
    SubsequenceMembers(s, l);
    TakeCons(k, a, small);
    TakeCons(k, b, large);
    SubsequenceCut(a, b, small - 1, large - 1);
    SubsequenceCons(Take(a, small - 1), Take(b, large - 1), k);
  }

  lemma {:induction false} InsertKeepsInclusion<V>(s: Cache<V>, l: Cache<V>, k: string, v: V)
    requires Valid(s) && Valid(l) && s.capacity <= l.capacity && Included(s, l)
    ensures Included(Insert(s, k, v), Insert(l, k, v))
  {
    var s', l' := Insert(s, k, v), Insert(l, k, v);
    InsertEffect(s, k, v);
    InsertEffect(l, k, v);
    MoveKeepsInclusion(s.order, l.order, k, s.capacity, l.capacity);
    SubsequenceMembers(s'.order, l'.order);
    forall x | x in s'.kv
      ensures x in l'.kv && s'.kv[x] == l'.kv[x]
    {
      assert x in s'.order;
    }
  }

  lemma {:induction false} StepKeepsInclusion<V>(s: Cache<V>, l: Cache<V>, op: Op<V>)
    requires Valid(s) && Valid(l) && s.capacity <= l.capacity && Included(s, l)
    ensures Included(Step(s, op), Step(l, op))
  {
    var k := op.key;
    WithoutNoDuplicates(s.order, k);
    WithoutNoDuplicates(l.order, k);
    match op
    case Put(_, v) => InsertKeepsInclusion(s, l, k, v);
    case Get(_) =>
      SubsequenceWithout(s.order, l.order, k);
      SubsequenceCons(Without(s.order, k), Without(l.order, k), k);
      if k !in s.kv {
        WithoutAbsent(s.order, k);
      }
    case Remove(_) =>
      SubsequenceWithout(s.order, l.order, k);
      if k !in s.kv {
        WithoutAbsent(s.order, k);
      }
  }

  /** One trace on two capacities: at every point the smaller cache is included in the larger,
      so every hit in the smaller is a hit with the same value in the larger. */
  lemma {:induction false} CapacityInclusion<V>(small: nat, large: nat, ops: seq<Op<V>>)
    requires 1 <= small <= large
    ensures Included(Run(Empty<V>(small), ops), Run(Empty<V>(large), ops))
    ensures forall k :: Lookup(Run(Empty<V>(small), ops), k).Some? ==>
                          Lookup(Run(Empty<V>(large), ops), k) == Lookup(Run(Empty<V>(small), ops), k)
  {
    if ops != [] {
      CapacityInclusion<V>(small, large, Init(ops));
      RunKeepsValid(Empty<V>(small), Init(ops));
      RunKeepsValid(Empty<V>(large), Init(ops));
      StepKeepsInclusion(Run(Empty<V>(small), Init(ops)), Run(Empty<V>(large), Init(ops)), Last(ops));
    }
  }

  // ----- Loading a batch -----

  /** `entries` lists the pairs of `batch` in some order, as iterating an unordered map does. */
  ghost predicate Enumerates<V>(entries: seq<(string, V)>, batch: map<string, V>) {
    && NoDuplicates(Keys(entries))
    && (forall k :: k in Keys(entries) <==> k in batch)
    && forall i :: 0 <= i < |entries| ==> entries[i].0 in batch && batch[entries[i].0] == entries[i].1
  }

  function Keys<V>(entries: seq<(string, V)>): (r: seq<string>)
    ensures |r| == |entries|
  {
    seq(|entries|, i requires 0 <= i < |entries| => entries[i].0)
  }

  /** `entries` lists the pairs of `batch` that are not still to do. */
  ghost predicate GoneThrough<V>(entries: seq<(string, V)>, batch: map<string, V>, todo: set<string>) {
    && todo <= batch.Keys && NoDuplicates(Keys(entries))
    && (forall k :: k in Keys(entries) <==> k in batch && k !in todo)
    && forall i :: 0 <= i < |entries| ==> entries[i].0 in batch && batch[entries[i].0] == entries[i].1
  }

  lemma NextEntry<V>(entries: seq<(string, V)>, batch: map<string, V>, todo: set<string>, k: string)
    requires GoneThrough(entries, batch, todo) && k in todo
    ensures GoneThrough(entries + [(k, batch[k])], batch, todo - {k})
    ensures var more := entries + [(k, batch[k])]; Init(more) == entries && Last(more) == (k, batch[k])
  {
    var more := entries + [(k, batch[k])];
    assert Keys(more) == Keys(entries) + [k];
    assert Keys(more)[|entries|] == k;
    assert forall i :: 0 <= i < |entries| ==> Keys(entries)[i] in Keys(entries);
  }

  lemma AllGoneThrough<V>(entries: seq<(string, V)>, batch: map<string, V>)
    requires GoneThrough(entries, batch, {})
    ensures Enumerates(entries, batch)
  {
  }

  lemma NoneGoneThrough<V>(batch: map<string, V>)
    ensures GoneThrough([], batch, batch.Keys)
  {
  }

  function Load<V>(c: Cache<V>, entries: seq<(string, V)>): Cache<V> {
    if entries == [] then c else Insert(Load(c, Init(entries)), Last(entries).0, Last(entries).1)
  }

  function AsMap<V>(entries: seq<(string, V)>): map<string, V> {
    if entries == [] then map[] else AsMap(Init(entries))[Last(entries).0 := Last(entries).1]
  }

  /** The most recent old keys outside the batch that still fit beside it. */
  function Survivors<V>(c: Cache<V>, batch: set<string>): seq<string> {
    Take(WithoutAll(c.order, batch), if |batch| <= c.capacity then c.capacity - |batch| else 0)
  }

  function Loaded<V>(c: Cache<V>, batch: map<string, V>): map<string, V> {
    (map k | k in c.kv && k in Survivors(c, batch.Keys) :: c.kv[k]) + batch
  }

  lemma {:induction false} KeysOfInit<V>(entries: seq<(string, V)>)
    requires entries != []
    ensures Keys(entries) == Keys(Init(entries)) + [Last(entries).0]
    ensures Elements(Keys(entries)) == Elements(Keys(Init(entries))) + {Last(entries).0}
    ensures NoDuplicates(Keys(entries)) ==> NoDuplicates(Keys(Init(entries))) && Last(entries).0 !in Keys(Init(entries))
  {
    var ks, ks', k := Keys(entries), Keys(Init(entries)), Last(entries).0;
    assert ks == ks' + [k];
    if NoDuplicates(ks) {
      assert forall i :: 0 <= i < |ks'| ==> ks'[i] == ks[i] && ks[|ks'|] == k;
    }
  }

  /** Putting distinct keys one after another: the last put is the first of the list. */
  lemma {:induction false} LoadOrder<V>(c: Cache<V>, entries: seq<(string, V)>)
    requires Valid(c) && NoDuplicates(Keys(entries))
    ensures Valid(Load(c, entries)) && Load(c, entries).capacity == c.capacity
    ensures Load(c, entries).order ==
            Take(Reverse(Keys(entries)) + WithoutAll(c.order, Elements(Keys(entries))), c.capacity)
  {
    if entries == [] {
      assert Elements(Keys(entries)) == {};
      WithoutAllNone(c.order);
      assert Reverse(Keys(entries)) + c.order == c.order;
      TakeAll(c.order, c.capacity);
    } else {
      KeysOfInit(entries);
      LoadOrder(c, Init(entries));
      var k, v, ks, b := Last(entries).0, Last(entries).1, Keys(Init(entries)), Load(c, Init(entries));
      InsertEffect(b, k, v);
      LoadOrderStep(c.order, ks, k, c.capacity);
    }
  }

  lemma {:induction false} LoadOrderStep(order: seq<string>, ks: seq<string>, k: string, capacity: nat)
    requires NoDuplicates(order) && NoDuplicates(ks) && k !in ks && capacity >= 1
    ensures Take([k] + Without(Take(Reverse(ks) + WithoutAll(order, Elements(ks)), capacity), k), capacity)
         == Take(Reverse(ks + [k]) + WithoutAll(order, Elements(ks) + {k}), capacity)
  {
    var rest := WithoutAll(order, Elements(ks));
    var whole := Reverse(ks) + rest;
    ReverseNoDuplicates(ks);
    ReverseMembers(ks);
    WithoutAllNoDuplicates(order, Elements(ks));
    WithoutAllMembers(order, Elements(ks));
    NoDuplicatesConcat(Reverse(ks), rest);
    CutThenMove(whole, k, capacity);
    WithoutConcat(Reverse(ks), rest, k);
    WithoutAbsent(Reverse(ks), k);
    WithoutAllStep(order, Elements(ks), k);
    assert Init(ks + [k]) == ks;
    assert [k] + Without(whole, k) == Reverse(ks + [k]) + WithoutAll(order, Elements(ks) + {k});
  }

  lemma {:induction false} LoadValues<V>(c: Cache<V>, entries: seq<(string, V)>)
    requires Valid(c) && NoDuplicates(Keys(entries))
    ensures AsMap(entries).Keys == Elements(Keys(entries))
    ensures forall k :: k in Load(c, entries).kv ==>
                          if k in AsMap(entries) then Load(c, entries).kv[k] == AsMap(entries)[k]
                          else k in c.kv && Load(c, entries).kv[k] == c.kv[k]
  {
    if entries == [] {
    } else {
      KeysOfInit(entries);
      LoadValues(c, Init(entries));
      LoadOrder(c, Init(entries));
      InsertEffect(Load(c, Init(entries)), Last(entries).0, Last(entries).1);
    }
  }

  lemma {:induction false} EnumerationIsBatch<V>(entries: seq<(string, V)>, batch: map<string, V>)
    requires Enumerates(entries, batch)
    ensures AsMap(entries) == batch
    ensures |entries| == |batch|
    ensures Elements(Keys(entries)) == batch.Keys
  {
    NoDuplicatesLength(Keys(entries));
    assert Elements(Keys(entries)) == batch.Keys;
    AsMapAt(entries);
    forall k | k in batch
      ensures k in AsMap(entries) && AsMap(entries)[k] == batch[k]
    {
      var i :| 0 <= i < |entries| && Keys(entries)[i] == k;
    }
  }

  lemma {:induction false} AsMapAt<V>(entries: seq<(string, V)>)
    requires NoDuplicates(Keys(entries))
    ensures AsMap(entries).Keys == Elements(Keys(entries))
    ensures forall i :: 0 <= i < |entries| ==>
                          entries[i].0 in AsMap(entries) && AsMap(entries)[entries[i].0] == entries[i].1
  {
    if entries == [] {
    } else {
      var ks := Keys(entries);
      KeysOfInit(entries);
      AsMapAt(Init(entries));
      forall i | 0 <= i < |entries|
        ensures entries[i].0 in AsMap(entries) && AsMap(entries)[entries[i].0] == entries[i].1
      {
        assert ks[i] == entries[i].0;
        assert ks[|ks| - 1] == Last(entries).0;
        if i < |entries| - 1 {
          assert Init(entries)[i] == entries[i];
        }
      }
    }
  }

  lemma {:induction false} LoadKeys<V>(c: Cache<V>, batch: map<string, V>, entries: seq<(string, V)>)
    requires Valid(c) && |batch| <= c.capacity && Enumerates(entries, batch)
    ensures forall k :: k in Load(c, entries).kv <==> k in batch || k in Survivors(c, batch.Keys)
  {
    EnumerationIsBatch(entries, batch);
    LoadOrder(c, entries);
    var ks := Reverse(Keys(entries));
    ReverseMembers(Keys(entries));
    TakeConcat(ks, WithoutAll(c.order, batch.Keys), c.capacity);
    forall k
      ensures k in Load(c, entries).kv <==> k in batch || k in Survivors(c, batch.Keys)
    {
      assert k in Load(c, entries).kv <==> k in ks + Survivors(c, batch.Keys);
    }
  }

  lemma {:induction false} LoadBatchValues<V>(c: Cache<V>, batch: map<string, V>, entries: seq<(string, V)>)
    requires Valid(c) && Enumerates(entries, batch)
    ensures forall k :: k in Load(c, entries).kv ==>
                          if k in batch then Load(c, entries).kv[k] == batch[k]
                          else k in c.kv && Load(c, entries).kv[k] == c.kv[k]
  {
    EnumerationIsBatch(entries, batch);
    LoadValues(c, entries);
  }

  /** A batch of at most `capacity` keys ends in the same map whatever order it is loaded in. */
  lemma {:induction false} BatchOrderDoesNotMatter<V>(c: Cache<V>, batch: map<string, V>, entries: seq<(string, V)>)
    requires Valid(c) && |batch| <= c.capacity && Enumerates(entries, batch)
    ensures Load(c, entries).kv == Loaded(c, batch)
  {
    LoadKeys(c, batch, entries);
    LoadBatchValues(c, batch, entries);
    OverlaidMap(Load(c, entries).kv, c.kv, Survivors(c, batch.Keys), batch);
  }

  lemma {:induction false} OverlaidMap<V>(r: map<string, V>, base: map<string, V>, kept: seq<string>,
                                          batch: map<string, V>)
    requires forall k :: k in r <==> k in batch || k in kept
    requires forall k :: k in r ==> if k in batch then r[k] == batch[k] else k in base && r[k] == base[k]
    ensures r == (map k | k in base && k in kept :: base[k]) + batch
  {
  }

  ghost predicate OrderIrrelevant<V(!new)>(c: Cache<V>, batch: map<string, V>) {
    forall a, b :: Enumerates(a, batch) && Enumerates(b, batch) ==> Load(c, a).kv == Load(c, b).kv
  }

  /** The order of loading is invisible exactly when the batch fits in the cache. */
  lemma {:induction false} OrderIrrelevantIffBatchFits<V(!new)>(c: Cache<V>, batch: map<string, V>)
    requires Valid(c)
    ensures OrderIrrelevant(c, batch) <==> |batch| <= c.capacity
  {
    if |batch| <= c.capacity {
      forall a, b | Enumerates(a, batch) && Enumerates(b, batch)
        ensures Load(c, a).kv == Load(c, b).kv
      {
        BatchOrderDoesNotMatter(c, batch, a);
        BatchOrderDoesNotMatter(c, batch, b);
      }
    } else {
      var first := SomeEnumeration(batch);
      RotatedEnumeration(batch, first);
      FirstOfOversizedBatchIsLost(c, batch, first, first[1..] + [first[0]]);
    }
  }

  lemma {:induction false} RotatedEnumeration<V>(batch: map<string, V>, entries: seq<(string, V)>)
    requires Enumerates(entries, batch) && entries != []
    ensures Enumerates(entries[1..] + [entries[0]], batch)
  {
    var rotated := entries[1..] + [entries[0]];
    var ks, ks' := Keys(entries), Keys(rotated);
    assert forall i :: 0 <= i < |ks| - 1 ==> ks'[i] == ks[i + 1];
    assert ks'[|ks| - 1] == ks[0];
    forall k | k in batch
      ensures k in ks'
    {
      var i :| 0 <= i < |ks| && ks[i] == k;
      assert ks'[if i == 0 then |ks| - 1 else i - 1] == k;
    }
  }

  lemma {:induction false} SomeEnumeration<V>(batch: map<string, V>) returns (entries: seq<(string, V)>)
    ensures Enumerates(entries, batch)
    ensures |entries| == |batch|
    decreases |batch|
  {
    if batch == map[] {
      entries := [];
    } else {
      var k :| k in batch;
      var rest := batch - {k};
      assert rest.Keys == batch.Keys - {k};
      var tail := SomeEnumeration(rest);
      entries := tail + [(k, batch[k])];
      OneMore(tail, batch, k);
    }
  }

  lemma OneMore<V>(entries: seq<(string, V)>, batch: map<string, V>, k: string)
    requires k in batch && Enumerates(entries, batch - {k})
    ensures Enumerates(entries + [(k, batch[k])], batch)
  {
    assert GoneThrough(entries, batch, {k});
    NextEntry(entries, batch, {k}, k);
    AllGoneThrough(entries + [(k, batch[k])], batch);
  }

  /** The keys of a batch can be gone through with any one of them last. */
  lemma EnumeratedLast<V>(batch: map<string, V>, k: string) returns (order: seq<(string, V)>)
    requires k in batch
    ensures Enumerates(order, batch) && order != [] && Last(order) == (k, batch[k])
  {
    var before := SomeEnumeration(batch - {k});
    order := before + [(k, batch[k])];
    OneMore(before, batch, k);
  }

  /** In a batch larger than the cache the key loaded first is lost and the key loaded last is kept. */
  lemma {:induction false} FirstOfOversizedBatchIsLost<V>(c: Cache<V>, batch: map<string, V>, first: seq<(string, V)>,
                                                          last: seq<(string, V)>)
    requires Valid(c) && |batch| > c.capacity
    requires Enumerates(first, batch) && Enumerates(last, batch)
    requires first != [] && last != [] && first[0] == Last(last)
    ensures first[0].0 !in Load(c, first).kv && first[0].0 in Load(c, last).kv
  {
    EnumerationIsBatch(first, batch);
    LoadOrder(c, first);
    LoadOrder(c, last);
    var k, r := first[0].0, Reverse(Keys(first));
    ReverseEnds(Keys(first));
    ReverseNoDuplicates(Keys(first));
    assert Load(c, first).order == r[..c.capacity];
    assert k == r[|r| - 1];
    assert k !in r[..c.capacity];
    ReverseEnds(Keys(last));
    assert Load(c, last).order[0] == k;
  }

  lemma {:induction false} ReverseEnds<T>(s: seq<T>)
    requires s != []
    ensures Reverse(s)[0] == Last(s) && Last(Reverse(s)) == s[0]
  {
    if |s| == 1 {
    } else {
      ReverseEnds(Init(s));
    }
  }
}
