/** The LRU engine in the form the program has it: a linked recency list, an index of iterators
    into that list, and a hash map, updated in place and kept in step. */
module LruStore {
  import opened Lists
  import opened Lru

  class HashStore<V> {
    var kv: map<string, V>

    constructor ()
      ensures kv == map[]
    {
      kv := map[];
    }

    method Put(key: string, value: V)
      modifies this
      ensures kv == old(kv)[key := value]
    {
      kv := kv[key := value];
    }

    method Exists(key: string) returns (found: bool)
      ensures found == (key in kv)
    {
      found := key in kv;
    }

    method Remove(key: string) returns (removed: bool)
      modifies this
      ensures removed == (key in old(kv)) && kv == old(kv) - {key}
    {
      removed := key in kv;
      kv := kv - {key};
    }

    method Get(key: string) returns (value: Option<V>)
      ensures value == if key in kv then Some(kv[key]) else None
    {
      value := if key in kv then Some(kv[key]) else None;
    }
  }

  /** One node of the linked list. Its identity is what an iterator denotes: it stays the same
      while other nodes come and go. */
  datatype Cell = Cell(node: nat, key: string)

  function CellKeys(cells: seq<Cell>): (r: seq<string>)
    ensures |r| == |cells|
  {
    seq(|cells|, i requires 0 <= i < |cells| => cells[i].key)
  }

  /** Distinct keys and distinct node identities, all below the next fresh one. */
  predicate Linked(cells: seq<Cell>, nextNode: nat) {
    && (forall i, j :: 0 <= i < j < |cells| ==> cells[i].key != cells[j].key && cells[i].node != cells[j].node)
    && (forall i :: 0 <= i < |cells| ==> cells[i].node < nextNode)
  }

  /** The index a list of nodes must have: each key points at the node that holds it. */
  function IndexOf(cells: seq<Cell>): map<string, nat> {
    if cells == [] then map[] else IndexOf(Init(cells))[Last(cells).key := Last(cells).node]
  }

  lemma {:induction false} IndexPointsAtOwnKey(cells: seq<Cell>, nextNode: nat)
    requires Linked(cells, nextNode)
    ensures forall k :: k in IndexOf(cells) <==> k in CellKeys(cells)
    ensures forall i :: 0 <= i < |cells| ==>
              cells[i].key in IndexOf(cells) && IndexOf(cells)[cells[i].key] == cells[i].node
    ensures NoDuplicates(CellKeys(cells))
  {
    if cells == [] {
    } else {
      IndexPointsAtOwnKey(Init(cells), nextNode);
      assert CellKeys(cells) == CellKeys(Init(cells)) + [Last(cells).key];
      forall i | 0 <= i < |cells|
        ensures cells[i].key in IndexOf(cells) && IndexOf(cells)[cells[i].key] == cells[i].node
      {
        if i < |cells| - 1 {
          assert Init(cells)[i] == cells[i];
        }
      }
    }
  }

  function Erased(cells: seq<Cell>, at: nat): seq<Cell>
    requires at < |cells|
  {
    cells[..at] + cells[at + 1..]
  }

  /** Erasing one node takes its key, and nothing else, out of the list and out of the index. */
  lemma {:induction false} EraseEffect(cells: seq<Cell>, at: nat, nextNode: nat)
    requires Linked(cells, nextNode) && at < |cells|
    ensures Linked(Erased(cells, at), nextNode)
    ensures CellKeys(Erased(cells, at)) == Without(CellKeys(cells), cells[at].key)
    ensures IndexOf(Erased(cells, at)) == IndexOf(cells) - {cells[at].key}
  {
    EraseKeysEffect(cells, at, nextNode);
    EraseIndexEffect(cells, at, nextNode);
  }

  lemma {:induction false} EraseKeysEffect(cells: seq<Cell>, at: nat, nextNode: nat)
    requires Linked(cells, nextNode) && at < |cells|
    ensures CellKeys(Erased(cells, at)) == Without(CellKeys(cells), cells[at].key)
  {
    var ks := CellKeys(cells);
    assert NoDuplicates(ks) by {
      assert forall i :: 0 <= i < |cells| ==> ks[i] == cells[i].key;
    }
    WithoutAt(ks, at);
    assert CellKeys(Erased(cells, at)) == ks[..at] + ks[at + 1..];
  }

  lemma {:induction false} EraseIndexEffect(cells: seq<Cell>, at: nat, nextNode: nat)
    requires Linked(cells, nextNode) && at < |cells|
    ensures IndexOf(Erased(cells, at)) == IndexOf(cells) - {cells[at].key}
  {
    if at == |cells| - 1 {
      assert Erased(cells, at) == Init(cells);
      KeyOfLastIsNew(cells, nextNode);
    } else {
      var e := Erased(cells, at);
      assert Init(e) == Erased(Init(cells), at);
      assert Last(e) == Last(cells) && Init(cells)[at] == cells[at];
      EraseIndexEffect(Init(cells), at, nextNode);
    }
  }

  lemma {:induction false} KeyOfLastIsNew(cells: seq<Cell>, nextNode: nat)
    requires cells != [] && Linked(cells, nextNode)
    ensures Last(cells).key !in IndexOf(Init(cells))
  {
    IndexPointsAtOwnKey(Init(cells), nextNode);
    assert forall i :: 0 <= i < |Init(cells)| ==> CellKeys(Init(cells))[i] == cells[i].key;
  }

  /** Erasing the last node cuts the list and the index by exactly its key. */
  lemma {:induction false} LastErased(cells: seq<Cell>, nextNode: nat)
    requires Linked(cells, nextNode) && cells != []
    ensures Linked(Init(cells), nextNode)
    ensures CellKeys(Init(cells)) == Init(CellKeys(cells))
    ensures Last(cells).key == Last(CellKeys(cells))
    ensures IndexOf(Init(cells)) == IndexOf(cells) - {Last(cells).key}
    ensures Last(cells).key in IndexOf(cells)
  {
    KeyOfLastIsNew(cells, nextNode);
  }

  lemma {:induction false} PushEffect(cells: seq<Cell>, key: string, nextNode: nat)
    requires Linked(cells, nextNode) && key !in CellKeys(cells)
    ensures var r := [Cell(nextNode, key)] + cells;
            Linked(r, nextNode + 1) && CellKeys(r) == [key] + CellKeys(cells)
            && IndexOf(r) == IndexOf(cells)[key := nextNode]
  {
    assert forall i :: 0 <= i < |cells| ==> CellKeys(cells)[i] == cells[i].key;
    PushIndexEffect(cells, key, nextNode);
  }

  lemma {:induction false} PushIndexEffect(cells: seq<Cell>, key: string, nextNode: nat)
    requires forall i :: 0 <= i < |cells| ==> cells[i].key != key
    ensures IndexOf([Cell(nextNode, key)] + cells) == IndexOf(cells)[key := nextNode]
  {
    var r := [Cell(nextNode, key)] + cells;
    if cells == [] {
      assert Init(r) == [];
    } else {
      assert Init(r) == [Cell(nextNode, key)] + Init(cells) && Last(r) == Last(cells);
      PushIndexEffect(Init(cells), key, nextNode);
    }
  }

  class LRUStore<V> {
    const capacity: nat
    const store: HashStore<V>
    var lruList: seq<Cell>
    var index: map<string, nat>
    var nextNode: nat

    /** The three structures agree: each index entry points at the one node that holds its key. */
    ghost predicate Valid()
      reads this, store
    {
      && capacity >= 1
      && |lruList| <= capacity
      && Linked(lruList, nextNode)
      && index == IndexOf(lruList)
      && index.Keys == store.kv.Keys
    }

    ghost function Abstract(): Cache<V>
      reads this, store
    {
      Cache(capacity, CellKeys(lruList), store.kv)
    }

    lemma AbstractValid()
      requires Valid()
      ensures Lru.Valid(Abstract())
    {
      IndexPointsAtOwnKey(lruList, nextNode);
      assert forall k :: k in store.kv <==> k in index;
    }

    constructor (capacity: nat)
      requires capacity >= 1
      ensures Valid() && Abstract() == Empty<V>(capacity)
      ensures this.capacity == capacity && fresh(store)
    {
      this.capacity := capacity;
      this.store := new HashStore();
      lruList, index, nextNode := [], map[], 0;
    }

    /** Erasing the node that the index entry of a key points at, in the list and in the index. */
    method EraseKey(key: string)
      requires Linked(lruList, nextNode) && index == IndexOf(lruList) && key in index
      modifies this`lruList, this`index
      ensures Linked(lruList, nextNode) && index == IndexOf(lruList)
      ensures CellKeys(lruList) == Without(old(CellKeys(lruList)), key)
      ensures |lruList| == |old(lruList)| - 1
      ensures index == old(index) - {key}
    {
      IndexPointsAtOwnKey(lruList, nextNode);
      ghost var at :| 0 <= at < |lruList| && CellKeys(lruList)[at] == key;
      assert lruList[at].node == index[key];
      var i := 0;
      while lruList[i].node != index[key]
        invariant 0 <= i <= at
        decreases at - i
      {
        i := i + 1;
      }
      assert i == at;
      EraseEffect(lruList, i, nextNode);
      lruList := lruList[..i] + lruList[i + 1..];
      index := index - {key};
    }

    /** Pushing a key at the front and pointing its index entry at the new node. */
    method PushFront(key: string)
      requires Linked(lruList, nextNode) && index == IndexOf(lruList) && key !in index
      modifies this
      ensures Linked(lruList, nextNode) && index == IndexOf(lruList)
      ensures CellKeys(lruList) == [key] + old(CellKeys(lruList))
      ensures |lruList| == |old(lruList)| + 1
      ensures index.Keys == old(index).Keys + {key}
    {
      IndexPointsAtOwnKey(lruList, nextNode);
      PushEffect(lruList, key, nextNode);
      lruList := [Cell(nextNode, key)] + lruList;
      index := index[key := nextNode];
      nextNode := nextNode + 1;
    }

    method Put(key: string, value: V)
      requires Valid()
      modifies this, store
      ensures Valid()
      ensures Abstract() == Insert(old(Abstract()), key, value)
    {
      if key in index {
        EraseKey(key);
        PushFront(key);
        store.Put(key, value);
        return;
      }
      if |lruList| >= capacity {
        EvictLast();
      }
      PushFront(key);
      store.Put(key, value);
    }

    /** Taking the node at the back out of the list, and its key out of the index and the map. */
    method EvictLast()
      requires Valid() && lruList != []
      modifies this, store
      ensures Valid() && |lruList| == |old(lruList)| - 1
      ensures CellKeys(lruList) == Init(old(CellKeys(lruList)))
      ensures store.kv == old(store.kv) - {Last(old(CellKeys(lruList)))}
      ensures index.Keys < old(index.Keys)
    {
      LastErased(lruList, nextNode);
      var lruKey := lruList[|lruList| - 1].key;
      lruList := lruList[..|lruList| - 1];
      index := index - {lruKey};
      var _ := store.Remove(lruKey);
    }

    method Get(key: string) returns (value: Option<V>)
      requires Valid()
      modifies this
      ensures Valid()
      ensures value == Lookup(old(Abstract()), key)
      ensures Abstract() == Touch(old(Abstract()), key) && store.kv == old(store.kv)
    {
      var found := store.Exists(key);
      if !found {
        return None;
      }
      EraseKey(key);
      PushFront(key);
      value := store.Get(key);
    }

    method Remove(key: string) returns (removed: bool)
      requires Valid()
      modifies this, store
      ensures Valid()
      ensures removed == (key in old(store.kv)) && store.kv == old(store.kv) - {key}
      ensures !removed ==> CellKeys(lruList) == old(CellKeys(lruList))
      ensures forall i :: 0 <= i < |old(lruList)| && old(lruList)[i].key == key ==>
                CellKeys(lruList) == old(CellKeys(lruList)[..i] + CellKeys(lruList)[i + 1..])
      ensures Abstract() == Delete(old(Abstract()), key)
    {
      AbstractValid();
      DeleteEffect(Abstract(), key);
      var found := store.Exists(key);
      if !found {
        return false;
      }
      EraseKey(key);
      removed := store.Remove(key);
    }

    method GetKvBatch() returns (batch: map<string, V>)
      ensures batch == store.kv
    {
      batch := store.kv;
    }

    /** Putting every pair of a map, in whatever order the map yields them. */
    method SetKvBatch(kvs: map<string, V>) returns (ghost entries: seq<(string, V)>)
      requires Valid()
      modifies this, store
      ensures Valid()
      ensures Enumerates(entries, kvs)
      ensures Abstract() == Load(old(Abstract()), entries)
      ensures |kvs| <= capacity ==> store.kv == Loaded(old(Abstract()), kvs)
    {
      hide GoneThrough, Linked, CellKeys, Insert;
      var todo := kvs.Keys;
      entries := [];
      AbstractValid();
      NoneGoneThrough(kvs);
      while todo != {}
        invariant Valid() && todo <= kvs.Keys && GoneThrough(entries, kvs, todo)
        invariant Abstract() == Load(old(Abstract()), entries)
        decreases todo
      {
        var key :| key in todo;
        NextEntry(entries, kvs, todo, key);
        todo := todo - {key};
        Put(key, kvs[key]);
        entries := entries + [(key, kvs[key])];
      }
      AllGoneThrough(entries, kvs);
      if |kvs| <= capacity {
        BatchOrderDoesNotMatter(old(Abstract()), kvs, entries);
      }
    }
  }

  /** The list of updates a sync response carries. */
  class LocalSyncPayload<V> {
    var updates: seq<(string, V, int)>

    constructor ()
      ensures updates == []
    {
      updates := [];
    }

    method LoadFromMap(data: map<string, V>, now: int) returns (ghost entries: seq<(string, V)>)
      modifies this
      ensures Enumerates(entries, data)
      ensures |updates| == |entries|
      ensures forall i :: 0 <= i < |entries| ==> updates[i] == (entries[i].0, entries[i].1, now)
      ensures updates == Stamped(entries, now)
    {
      hide GoneThrough;
      updates := [];
      var todo := data.Keys;
      entries := [];
      NoneGoneThrough(data);
      while todo != {}
        invariant todo <= data.Keys && GoneThrough(entries, data, todo)
        invariant updates == Stamped(entries, now)
        decreases todo
      {
        var key :| key in todo;
        NextEntry(entries, data, todo, key);
        todo := todo - {key};
        entries := entries + [(key, data[key])];
        AddUpdate(key, data[key], now);
      }
      AllGoneThrough(entries, data);
    }

    method AddUpdate(key: string, value: V, ts: int)
      modifies this
      ensures updates == old(updates) + [(key, value, ts)]
    {
      updates := updates + [(key, value, ts)];
    }

    method GetPayload() returns (pairs: map<string, V>)
      ensures pairs == PayloadMap(updates)
    {
      pairs := map[];
      for i := 0 to |updates|
        invariant pairs == PayloadMap(updates[..i])
      {
        pairs := pairs[updates[i].0 := updates[i].1];
        assert Init(updates[..i + 1]) == updates[..i];
      }
      assert updates[..|updates|] == updates;
    }
  }

  function Stamped<V>(entries: seq<(string, V)>, now: int): (r: seq<(string, V, int)>)
    ensures |r| == |entries|
  {
    seq(|entries|, i requires 0 <= i < |entries| => (entries[i].0, entries[i].1, now))
  }

  function PayloadMap<V>(updates: seq<(string, V, int)>): map<string, V> {
    if updates == [] then map[] else PayloadMap(Init(updates))[Last(updates).0 := Last(updates).1]
  }

  lemma {:induction false} PayloadMapIsAsMap<V>(entries: seq<(string, V)>, now: int)
    ensures PayloadMap(Stamped(entries, now)) == AsMap(entries)
  {
    if entries == [] {
    } else {
      assert Init(Stamped(entries, now)) == Stamped(Init(entries), now);
      PayloadMapIsAsMap(Init(entries), now);
    }
  }

  /** A map sent as a payload arrives as the same map, in whatever order it was listed. */
  lemma {:induction false} PayloadRoundTrip<V>(data: map<string, V>, entries: seq<(string, V)>, now: int)
    requires Enumerates(entries, data)
    ensures PayloadMap(Stamped(entries, now)) == data
  {
    PayloadMapIsAsMap(entries, now);
    EnumerationIsBatch(entries, data);
  }

  lemma EverythingLoaded<V>(batch: map<string, V>, capacity: nat)
    requires capacity >= 1
    ensures Lru.Valid(Empty<V>(capacity)) && Loaded(Empty<V>(capacity), batch) == batch
  {
  }

  /** A snapshot of one engine, sent and loaded into an empty engine that is large enough,
      reproduces its map whatever orders the two iterations take. */
  lemma {:induction false} SnapshotReproducesMap<V>(source: Cache<V>, capacity: nat, now: int, sent: seq<(string, V)>,
                                                    loaded: seq<(string, V)>)
    requires Lru.Valid(source) && capacity >= 1 && capacity >= |source.kv|
    requires Enumerates(sent, source.kv)
    requires Enumerates(loaded, PayloadMap(Stamped(sent, now)))
    ensures Load(Empty<V>(capacity), loaded).kv == source.kv
  {
    hide PayloadMap, Stamped, Enumerates, Load;
    PayloadRoundTrip(source.kv, sent, now);
    EverythingLoaded(source.kv, capacity);
    BatchOrderDoesNotMatter(Empty<V>(capacity), source.kv, loaded);
  }
}
