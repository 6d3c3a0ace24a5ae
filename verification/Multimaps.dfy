/** Ordered multimaps: query parameters and form files are kept in them. */
module Multimaps {
  import opened Lists

  /** A multimap with text keys as the sequence it is iterated in: by key, equal keys in the order of insertion. */
  type Multimap<V> = seq<(string, V)>

  predicate Less(a: string, b: string) {
    b != "" && (a == "" || a[0] < b[0] || (a[0] == b[0] && Less(a[1..], b[1..])))
  }

  /** The texts agree up to i, where a ends or has the smaller character. */
  predicate DiffersAt(a: string, b: string, i: nat) {
    i <= |a| && i < |b| && a[..i] == b[..i] && (i == |a| || a[i] < b[i])
  }

  lemma DiffersOneLater(a: string, b: string, i: nat)
    requires a != "" && b != "" && a[0] == b[0]
    ensures DiffersAt(a, b, i + 1) <==> DiffersAt(a[1..], b[1..], i)
  {
    if i < |a| && i < |b| - 1 {
      assert a[..i + 1] == [a[0]] + a[1..][..i] && b[..i + 1] == [b[0]] + b[1..][..i];
      assert a[1..][..i] == a[..i + 1][1..] && b[1..][..i] == b[..i + 1][1..];
    }
  }

  /** Keys are compared by their first difference, and a key comes before its extensions. */
  lemma {:induction false} LessIff(a: string, b: string)
    ensures Less(a, b) <==> exists i: nat :: DiffersAt(a, b, i)
  {
    if a == "" || b == "" || a[0] != b[0] {
      assert Less(a, b) ==> DiffersAt(a, b, 0);
      LaterDifference(a, b);
    } else {
      LessIff(a[1..], b[1..]);
      assert !DiffersAt(a, b, 0);
      forall i: nat
        ensures DiffersAt(a, b, i + 1) <==> DiffersAt(a[1..], b[1..], i)
      {
        DiffersOneLater(a, b, i);
      }
      if i: nat :| DiffersAt(a[1..], b[1..], i) {
        assert DiffersAt(a, b, i + 1);
      }
      if i: nat :| DiffersAt(a, b, i) {
        assert DiffersAt(a[1..], b[1..], i - 1);
      }
    }
  }

  lemma LaterDifference(a: string, b: string)
    ensures forall i: nat :: DiffersAt(a, b, i) && i > 0 ==> a != "" && b != "" && a[0] == b[0]
  {
    forall i: nat | DiffersAt(a, b, i) && i > 0
      ensures a != "" && b != "" && a[0] == b[0]
    {
      assert a[..i][0] == a[0] && b[..i][0] == b[0];
    }
  }

  ghost predicate Sorted<V>(p: Multimap<V>) {
    forall i, j :: 0 <= i < j < |p| ==> !Less(p[j].0, p[i].0)
  }

  /** Insertion behind every entry whose key is not greater. */
  function Emplace<V>(p: Multimap<V>, k: string, v: V): Multimap<V> {
    if p == [] || !Less(k, Last(p).0) then p + [(k, v)] else Emplace(Init(p), k, v) + [Last(p)]
  }

  lemma {:induction false} LessTransitive(a: string, b: string, c: string)
    ensures Less(a, b) && Less(b, c) ==> Less(a, c)
    ensures !Less(b, a) && !Less(c, b) ==> !Less(c, a)
  {
    if a == "" || b == "" || c == "" {
    } else {
      LessTransitive(a[1..], b[1..], c[1..]);
    }
  }

  lemma {:induction false} LessAsymmetric(a: string, b: string)
    ensures Less(a, b) ==> !Less(b, a)
  {
    if a == "" || b == "" {
    } else {
      LessAsymmetric(a[1..], b[1..]);
    }
  }

  /** Insertion keeps a map ordered and adds exactly the pair. */
  lemma {:induction false} EmplaceKeepsSorted<V>(p: Multimap<V>, k: string, v: V)
    requires Sorted(p)
    ensures Sorted(Emplace(p, k, v)) && multiset(Emplace(p, k, v)) == multiset(p) + multiset{(k, v)}
    decreases |p|
  {
    if p == [] {
    } else if !Less(k, Last(p).0) {
      forall i | 0 <= i < |p|
        ensures !Less(k, p[i].0)
      {
        LessTransitive(p[i].0, Last(p).0, k);
        assert i < |p| - 1 ==> !Less(p[|p| - 1].0, p[i].0);
      }
      AppendSorted(p, (k, v));
    } else {
      assert forall i :: 0 <= i < |p| - 1 ==> Init(p)[i] == p[i];
      EmplaceKeepsSorted(Init(p), k, v);
      assert p == Init(p) + [Last(p)];
      AboveAll(p, Emplace(Init(p), k, v), k, v);
      AppendSorted(Emplace(Init(p), k, v), Last(p));
    }
  }

  lemma AppendSorted<V>(p: Multimap<V>, x: (string, V))
    requires Sorted(p) && forall i :: 0 <= i < |p| ==> !Less(x.0, p[i].0)
    ensures Sorted(p + [x])
  {
  }

  lemma AboveAll<V>(p: Multimap<V>, r: Multimap<V>, k: string, v: V)
    requires p != [] && Sorted(p) && Less(k, Last(p).0) && multiset(r) == multiset(Init(p)) + multiset{(k, v)}
    ensures forall i :: 0 <= i < |r| ==> !Less(Last(p).0, r[i].0)
  {
    LessAsymmetric(k, Last(p).0);
    forall i | 0 <= i < |r|
      ensures !Less(Last(p).0, r[i].0)
    {
      assert r[i] in multiset(r);
      if r[i] != (k, v) {
        assert r[i] in multiset(Init(p));
        var j :| 0 <= j < |p| - 1 && Init(p)[j] == r[i];
        assert p[j] == r[i];
      }
    }
  }

  /** The values under a key, in the order of iteration. */
  function ValuesOf<V>(p: Multimap<V>, k: string): seq<V> {
    if p == [] then [] else ValuesOf(Init(p), k) + if Last(p).0 == k then [Last(p).1] else []
  }

  /** Insertion puts the value behind those with the same key, and leaves other keys alone. */
  lemma {:induction false} EmplacedLast<V>(p: Multimap<V>, k: string, v: V, key: string)
    ensures ValuesOf(Emplace(p, k, v), key) == ValuesOf(p, key) + if key == k then [v] else []
    decreases |p|
  {
    if p == [] {
      assert Init([(k, v)]) == [];
    } else if !Less(k, Last(p).0) {
      assert Init(p + [(k, v)]) == p;
    } else {
      LessIrreflexive(k);
      assert Init(Emplace(Init(p), k, v) + [Last(p)]) == Emplace(Init(p), k, v);
      EmplacedLast(Init(p), k, v, key);
    }
  }

  lemma {:induction false} LessIrreflexive(a: string)
    ensures !Less(a, a)
  {
    LessAsymmetric(a, a);
  }

  // ----- Where an insertion goes -----

  /** How many entries stay in front of a new one with key k. */
  function Slot<V>(p: Multimap<V>, k: string): (i: nat)
    ensures i <= |p|
  {
    if p == [] || !Less(k, Last(p).0) then |p| else Slot(Init(p), k)
  }

  lemma {:induction false} EmplaceAtSlot<V>(p: Multimap<V>, k: string, v: V)
    ensures Emplace(p, k, v) == p[..Slot(p, k)] + [(k, v)] + p[Slot(p, k)..]
  {
    if p == [] || !Less(k, Last(p).0) {
    } else {
      var i := Slot(p, k);
      EmplaceAtSlot(Init(p), k, v);
      assert Init(p)[..i] == p[..i] && Init(p)[i..] + [Last(p)] == p[i..];
    }
  }
}
