/** Facts about lists that the recency list of the LRU engine relies on. */
module Lists {
  datatype Option<+T> = None | Some(value: T)

  predicate NoDuplicates<T(==)>(s: seq<T>) {
    forall i, j :: 0 <= i < j < |s| ==> s[i] != s[j]
  }

  function Elements<T>(s: seq<T>): set<T> {
    set x | x in s
  }

  function Init<T>(s: seq<T>): seq<T>
    requires s != []
  {
    s[..|s| - 1]
  }

  function Last<T>(s: seq<T>): T
    requires s != []
  {
    s[|s| - 1]
  }

  /** The first n elements, or all of them. */
  function Take<T>(s: seq<T>, n: nat): seq<T> {
    if n <= |s| then s[..n] else s
  }

  function Reverse<T>(s: seq<T>): (r: seq<T>)
    ensures |r| == |s|
  {
    if s == [] then [] else [Last(s)] + Reverse(Init(s))
  }

  /** s with every occurrence of x left out. */
  function Without<T(==)>(s: seq<T>, x: T): seq<T> {
    if s == [] then [] else if Last(s) == x then Without(Init(s), x) else Without(Init(s), x) + [Last(s)]
  }

  /** s with every element of xs left out. */
  function WithoutAll<T(==)>(s: seq<T>, xs: set<T>): seq<T> {
    if s == [] then [] else if Last(s) in xs then WithoutAll(Init(s), xs) else WithoutAll(Init(s), xs) + [Last(s)]
  }

  /** a can be got from b by leaving elements out. */
  predicate IsSubsequence<T(==)>(a: seq<T>, b: seq<T>) {
    a == [] ||
    (b != [] && (IsSubsequence(a, Init(b)) || (Last(a) == Last(b) && IsSubsequence(Init(a), Init(b)))))
  }

  lemma {:induction false} ReverseAt<T>(s: seq<T>)
    ensures forall i :: 0 <= i < |s| ==> Reverse(s)[i] == s[|s| - 1 - i]
  {
    if s == [] {
    } else {
      ReverseAt(Init(s));
    }
  }

  lemma {:induction false} ReverseMembers<T(!new)>(s: seq<T>)
    ensures forall x :: x in Reverse(s) <==> x in s
  {
    ReverseAt(s);
    forall x | x in s
      ensures x in Reverse(s)
    {
      var i :| 0 <= i < |s| && s[i] == x;
      assert Reverse(s)[|s| - 1 - i] == x;
    }
  }

  lemma {:induction false} WithoutMembers<T(!new)>(s: seq<T>, x: T)
    ensures forall y :: y in Without(s, x) <==> y in s && y != x
  {
    if s == [] {
    } else {
      WithoutMembers(Init(s), x);
      assert s == Init(s) + [Last(s)];
    }
  }

  lemma {:induction false} WithoutAllMembers<T(!new)>(s: seq<T>, xs: set<T>)
    ensures forall y :: y in WithoutAll(s, xs) <==> y in s && y !in xs
  {
    if s == [] {
    } else {
      WithoutAllMembers(Init(s), xs);
      assert s == Init(s) + [Last(s)];
    }
  }

  lemma {:induction false} WithoutAbsent<T>(s: seq<T>, x: T)
    requires forall i :: 0 <= i < |s| ==> s[i] != x
    ensures Without(s, x) == s
  {
    if s == [] {
    } else {
      WithoutAbsent(Init(s), x);
      assert s == Init(s) + [Last(s)];
    }
  }

  lemma {:induction false} WithoutAt<T>(s: seq<T>, i: nat)
    requires i < |s| && NoDuplicates(s)
    ensures Without(s, s[i]) == s[..i] + s[i + 1..]
  {
    if i == |s| - 1 {
      WithoutAbsent(Init(s), s[i]);
    } else {
      assert Init(s)[i] == s[i] && Init(s)[..i] == s[..i];
      WithoutAt(Init(s), i);
    }
  }

  lemma {:induction false} WithoutNoDuplicates<T>(s: seq<T>, x: T)
    requires NoDuplicates(s)
    ensures NoDuplicates(Without(s, x))
    ensures |Without(s, x)| == if x in s then |s| - 1 else |s|
  {
    if x in s {
      var i :| 0 <= i < |s| && s[i] == x;
      WithoutAt(s, i);
    } else {
      WithoutAbsent(s, x);
    }
  }

  lemma {:induction false} WithoutConcat<T>(a: seq<T>, b: seq<T>, x: T)
    ensures Without(a + b, x) == Without(a, x) + Without(b, x)
  {
    if b == [] {
      assert a + b == a;
    } else {
      assert Init(a + b) == a + Init(b) && Last(a + b) == Last(b);
      WithoutConcat(a, Init(b), x);
    }
  }

  /** Leaving elements out keeps the order of the others. */
  lemma {:induction false} WithoutKeepsOrder<T>(s: seq<T>, x: T, a: nat, b: nat) returns (a': nat, b': nat)
    requires a < b < |Without(s, x)|
    ensures a' < b' < |s| && s[a'] == Without(s, x)[a] && s[b'] == Without(s, x)[b]
  {
    if Last(s) != x && b == |Without(s, x)| - 1 {
      a' := WithoutPlace(Init(s), x, a);
      b' := |s| - 1;
    } else {
      a', b' := WithoutKeepsOrder(Init(s), x, a, b);
    }
  }

  lemma {:induction false} WithoutPlace<T>(s: seq<T>, x: T, a: nat) returns (a': nat)
    requires a < |Without(s, x)|
    ensures a' < |s| && s[a'] == Without(s, x)[a]
  {
    if Last(s) != x && a == |Without(s, x)| - 1 {
      a' := |s| - 1;
    } else {
      a' := WithoutPlace(Init(s), x, a);
    }
  }

  lemma {:induction false} WithoutAllStep<T>(s: seq<T>, xs: set<T>, x: T)
    ensures WithoutAll(s, xs + {x}) == Without(WithoutAll(s, xs), x)
  {
    if s == [] {
    } else {
      WithoutAllStep(Init(s), xs, x);
      if Last(s) !in xs {
        assert Init(WithoutAll(s, xs)) == WithoutAll(Init(s), xs);
      }
    }
  }

  lemma {:induction false} WithoutAllNone<T>(s: seq<T>)
    ensures WithoutAll(s, {}) == s
  {
    if s == [] {
    } else {
      WithoutAllNone(Init(s));
      assert Last(s) !in {};
      assert s == Init(s) + [Last(s)];
    }
  }

  lemma {:induction false} WithoutAllNoDuplicates<T(!new)>(s: seq<T>, xs: set<T>)
    requires NoDuplicates(s)
    ensures NoDuplicates(WithoutAll(s, xs))
  {
    if s == [] {
    } else {
      WithoutAllNoDuplicates(Init(s), xs);
      WithoutAllMembers(Init(s), xs);
      assert forall i :: 0 <= i < |s| - 1 ==> Init(s)[i] != Last(s);
    }
  }

  /** Cutting a list to c elements before or after moving x to its front gives the same c elements. */
  lemma {:induction false} CutThenMove<T>(s: seq<T>, x: T, c: nat)
    requires NoDuplicates(s) && c >= 1
    ensures Take([x] + Without(Take(s, c), x), c) == Take([x] + Without(s, x), c)
  {
    if |s| > c {
      var t, u := s[..c], s[c..];
      assert s == t + u;
      WithoutConcat(t, u, x);
      WithoutNoDuplicates(t, x);
    } else {
      assert Take(s, c) == s;
    }
  }

  lemma {:induction false} SubsequenceMembers<T(!new)>(a: seq<T>, b: seq<T>)
    requires IsSubsequence(a, b)
    ensures forall x :: x in a ==> x in b
    ensures |a| <= |b|
  {
    if a == [] {
    } else {
      if IsSubsequence(a, Init(b)) {
        SubsequenceMembers(a, Init(b));
      } else {
        assert a == Init(a) + [Last(a)];
        SubsequenceMembers(Init(a), Init(b));
      }
    }
  }

  lemma {:induction false} SubsequenceWithoutLast<T>(a: seq<T>, b: seq<T>)
    requires a != [] && IsSubsequence(a, b)
    ensures IsSubsequence(Init(a), Init(b))
  {
    if !IsSubsequence(a, Init(b)) {
    } else {
      SubsequenceWithoutLast(a, Init(b));
    }
  }

  lemma {:induction false} SubsequencePrefix<T>(a: seq<T>, b: seq<T>, n: nat)
    requires IsSubsequence(a, b)
    ensures IsSubsequence(Take(a, n), b)
  {
    if n < |a| {
      if IsSubsequence(a, Init(b)) {
        SubsequencePrefix(a, Init(b), n);
      } else {
        SubsequencePrefix(Init(a), Init(b), n);
        assert Take(Init(a), n) == Take(a, n);
      }
    } else {
      assert Take(a, n) == a;
    }
  }

  lemma {:induction false} SubsequenceWithout<T>(a: seq<T>, b: seq<T>, x: T)
    requires IsSubsequence(a, b)
    ensures IsSubsequence(Without(a, x), Without(b, x))
  {
    if a == [] {
    } else {
      if IsSubsequence(a, Init(b)) {
        SubsequenceWithout(a, Init(b), x);
        if Last(b) != x {
          assert Init(Without(b, x)) == Without(Init(b), x);
        }
      } else {
        SubsequenceWithout(Init(a), Init(b), x);
        if Last(b) != x {
          assert Init(Without(b, x)) == Without(Init(b), x);
          assert Init(Without(a, x)) == Without(Init(a), x);
        }
      }
    }
  }

  lemma {:induction false} SubsequenceCons<T>(a: seq<T>, b: seq<T>, x: T)
    requires IsSubsequence(a, b)
    ensures IsSubsequence(a, [x] + b)
    ensures IsSubsequence([x] + a, [x] + b)
  {
    if b == [] {
      assert [x] + a == [x] == [x] + b;
      assert IsSubsequence(Init([x]), Init([x]));
    } else {
      assert Init([x] + b) == [x] + Init(b);
      if a == [] {
        SubsequenceCons([], Init(b), x);
      } else if IsSubsequence(a, Init(b)) {
        SubsequenceCons(a, Init(b), x);
      } else {
        assert Init([x] + a) == [x] + Init(a);
        SubsequenceCons(Init(a), Init(b), x);
      }
    }
  }

  lemma {:induction false} NoDuplicatesLength<T>(s: seq<T>)
    requires NoDuplicates(s)
    ensures |Elements(s)| == |s|
  {
    if s != [] {
      NoDuplicatesLength(Init(s));
      assert Elements(s) == Elements(Init(s)) + {Last(s)};
      assert Last(s) !in Init(s);
    } else {
      assert Elements(s) == {};
    }
  }

  lemma {:induction false} ReverseNoDuplicates<T>(s: seq<T>)
    requires NoDuplicates(s)
    ensures NoDuplicates(Reverse(s))
  {
    ReverseAt(s);
  }

  lemma {:induction false} NoDuplicatesConcat<T(!new)>(a: seq<T>, b: seq<T>)
    requires NoDuplicates(a) && NoDuplicates(b)
    requires forall x :: x in a ==> x !in b
    ensures NoDuplicates(a + b)
  {
    var s := a + b;
    forall i, j | 0 <= i < j < |s|
      ensures s[i] != s[j]
    {
      if i < |a| <= j {
        assert a[i] in a && b[j - |a|] in b;
      }
    }
  }

  lemma {:induction false} TakeAll<T>(s: seq<T>, n: nat)
    requires |s| <= n
    ensures Take(s, n) == s
  {
  }

  lemma {:induction false} TakeConcat<T>(a: seq<T>, b: seq<T>, n: nat)
    requires |a| <= n
    ensures Take(a + b, n) == a + Take(b, n - |a|)
  {
  }

  lemma {:induction false} TakeCons<T>(x: T, s: seq<T>, n: nat)
    requires n >= 1
    ensures Take([x] + s, n) == [x] + Take(s, n - 1)
  {
  }

  /** Cutting at most one element off b, and one off a whenever one off b, keeps a inside b. */
  lemma {:induction false} SubsequenceCut<T>(a: seq<T>, b: seq<T>, m: nat, n: nat)
    requires IsSubsequence(a, b)
    requires |b| <= n + 1 && (|b| == n + 1 ==> |a| == m + 1)
    ensures IsSubsequence(Take(a, m), Take(b, n))
  {
    if |b| == n + 1 {
      SubsequenceWithoutLast(a, b);
      assert Take(a, m) == Init(a) && Take(b, n) == Init(b);
    } else {
      SubsequencePrefix(a, b, m);
      assert Take(b, n) == b;
    }
  }

  /** Moving x to the front, or putting it there, keeps a list duplicate-free and adds at most x. */
  lemma {:induction false} MovedToFront<T(!new)>(s: seq<T>, x: T)
    requires NoDuplicates(s)
    ensures NoDuplicates([x] + Without(s, x))
    ensures forall y :: y in [x] + Without(s, x) <==> y == x || y in s
    ensures |[x] + Without(s, x)| == if x in s then |s| else |s| + 1
  {
    WithoutNoDuplicates(s, x);
    WithoutMembers(s, x);
  }

  lemma {:induction false} InitMembers<T(!new)>(s: seq<T>)
    requires s != [] && NoDuplicates(s)
    ensures NoDuplicates(Init(s))
    ensures forall y :: y in Init(s) <==> y in s && y != Last(s)
  {
    forall y | y in s && y != Last(s)
      ensures y in Init(s)
    {
      var i :| 0 <= i < |s| && s[i] == y;
      assert Init(s)[i] == y;
    }
  }

  lemma Around<T>(s: seq<T>, i: nat)
    requires i < |s|
    ensures s == s[..i] + [s[i]] + s[i + 1..]
  {
  }

  lemma MiddleLeftOut<T>(a: seq<T>, x: T, b: seq<T>)
    ensures (a + [x] + b)[..|a|] + (a + [x] + b)[|a| + 1..] == a + b
  {
    assert (a + [x] + b)[..|a|] == a;
    assert (a + [x] + b)[|a| + 1..] == b;
  }
}
