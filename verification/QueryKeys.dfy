/** Which parameter maps survive being written as a query string and read back: those without a repeated pair
    whose keys, which are written without coding, are read as they are. */
module QueryKeys {
  import opened Lists
  import opened HttpText
  import opened Multimaps
  import opened Query

  // ----- The weight of a text -----

  /** A plus counts double, as reading turns it into a blank. */
  function Weight(s: string): nat {
    if s == "" then 0 else (if s[0] == '+' then 2 else 1) + Weight(s[1..])
  }

  lemma {:induction false} WeightConcat(a: string, b: string)
    ensures Weight(a + b) == Weight(a) + Weight(b)
  {
    if a == "" {
      assert a + b == b;
    } else {
      assert (a + b)[1..] == a[1..] + b;
      WeightConcat(a[1..], b);
    }
  }

  lemma WeightSplit(s: string, i: nat)
    requires i <= |s|
    ensures Weight(s) == Weight(s[..i]) + Weight(s[i..])
  {
    assert s == s[..i] + s[i..];
    WeightConcat(s[..i], s[i..]);
  }

  lemma {:induction false} WeightBounds(s: string)
    ensures |s| <= Weight(s) <= 2 * |s|
  {
    if s == "" {
    } else {
      WeightBounds(s[1..]);
    }
  }

  // ----- Reading makes texts lighter -----

  lemma {:induction false} PrefixWeighsLess(s: string, i: nat)
    requires i <= |s|
    ensures Weight(s[..i]) <= Weight(s) && (Weight(s[..i]) == Weight(s) ==> i == |s|)
  {
    WeightSplit(s, i);
    WeightBounds(s[i..]);
  }

  /** One coded character is at most as heavy as its code, and as heavy only if it is the code itself. */
  lemma DecodedCharWeighs(s: string, i: nat)
    requires i < |s|
    ensures var (c, next) := DecodeAt(s, i, true);
            && next <= |s| && Weight(c) <= Weight(s[i..next]) && (Weight(c) == Weight(s[i..next]) ==> c == s[i..next])
  {
    HexValueBound(s, i + 1, 2);
    HexValueBound(s, i + 2, 4);
    var (c, next) := DecodeAt(s, i, true);
    WeightBounds(s[i..next]);
    WeightBounds(c);
    WeightOfOne(s[i]);
    WeightOfOne(' ');
    if next == i + 1 {
      assert s[i..next] == [s[i]];
    }
    if |c| == 1 {
      WeightOfOne(c[0]);
    } else if |c| == 3 {
      HeavyCode(c);
    }
  }

  lemma WeightOfOne(c: char)
    ensures Weight([c]) == if c == '+' then 2 else 1
  {
    assert [c][1..] == "";
  }

  lemma HeavyCode(c: string)
    requires |c| == 3 && c[0] != '+'
    ensures Weight(c) < 6
  {
    WeightBounds(c[1..]);
  }

  lemma {:induction false} DecodedWeighs(s: string, i: nat)
    requires i <= |s|
    ensures var d := DecodeFrom(s, i, true);
            Weight(d) <= Weight(s[i..]) && (Weight(d) == Weight(s[i..]) ==> d == s[i..])
    decreases |s| - i
  {
    if i == |s| {
    } else {
      var (c, next) := DecodeAt(s, i, true);
      DecodedCharWeighs(s, i);
      DecodedWeighs(s, next);
      WeightConcat(c, DecodeFrom(s, next, true));
      assert s[i..] == s[i..next] + s[next..];
      WeightConcat(s[i..next], s[next..]);
    }
  }

  lemma DecodeWeighs(s: string)
    ensures Weight(Decode(s, true)) <= Weight(s) && (Weight(Decode(s, true)) == Weight(s) ==> Decode(s, true) == s)
  {
    DecodedWeighs(s, 0);
    assert s[0..] == s;
  }

  // ----- Keys of parts -----

  function KeyOf(part: string): string {
    Divided(part, '=').0
  }

  /** What trimming leaves of a part has no heavier key, and a lighter one if the part began with a blank. */
  lemma TrimmedKeyWeighs(t: string)
    ensures var k := Weight(KeyOf(Trim(t)));
            k <= Weight(KeyOf(t)) && (t != "" && IsBlank(t[0]) ==> k < Weight(KeyOf(t)))
    ensures Trim(t) == "" ==> Weight(KeyOf(t)) > 0 || t == ""
  {
    LeftTrimmedKey(t);
    RightTrimmedKey(TrimLeft(t));
  }

  lemma {:induction false} LeftTrimmedKey(t: string)
    ensures var k := Weight(KeyOf(TrimLeft(t)));
            k <= Weight(KeyOf(t)) && (t != "" && IsBlank(t[0]) ==> k < Weight(KeyOf(t)))
  {
    if t == "" || !IsBlank(t[0]) {
    } else {
      LeftTrimmedKey(t[1..]);
      assert IndexOf(t, '=') == 1 + IndexOf(t[1..], '=');
      assert KeyOf(t) == [t[0]] + KeyOf(t[1..]);
      WeightConcat([t[0]], KeyOf(t[1..]));
      WeightOfOne(t[0]);
    }
  }

  lemma {:induction false} RightTrimmedKey(t: string)
    ensures Weight(KeyOf(TrimRight(t))) <= Weight(KeyOf(t))
    ensures TrimRight(t) == "" ==> Weight(KeyOf(t)) > 0 || t == ""
  {
    if t == "" || !IsBlank(Last(t)) {
    } else {
      var u := Init(t);
      RightTrimmedKey(u);
      var i := IndexOf(u, '=');
      if i < |u| {
        IndexOfIs(t, '=', i);
        assert KeyOf(t) == KeyOf(u);
      } else {
        IndexOfIs(t, '=', |t|);
        assert KeyOf(t) == t && KeyOf(u) == u;
        WeightSplit(t, |u|);
        WeightBounds(t);
      }
    }
  }

  // ----- Parts of a query string -----

  function KeysOf(parts: seq<string>): nat {
    if parts == [] then 0 else KeysOf(Init(parts)) + Weight(KeyOf(Last(parts)))
  }

  lemma {:induction false} KeysOfConcat(a: seq<string>, b: seq<string>)
    ensures KeysOf(a + b) == KeysOf(a) + KeysOf(b)
  {
    if b == [] {
      assert a + b == a;
    } else {
      assert Init(a + b) == a + Init(b);
      KeysOfConcat(a, Init(b));
    }
  }

  lemma KeptWeighs(t: string)
    ensures KeysOf(Kept(t)) <= Weight(KeyOf(t)) && (t != "" && IsBlank(t[0]) ==> KeysOf(Kept(t)) < Weight(KeyOf(t)))
  {
    hide KeyOf, Trim;
    TrimmedKeyWeighs(t);
    if Trim(t) != "" {
      assert Init([Trim(t)]) == [] && KeysOf([]) == 0;
    }
  }

  lemma KeyOfPair(k: string, enc: string)
    ensures Weight(KeyOf(k + "=" + enc)) <= Weight(k)
    ensures Weight(KeyOf(k + "=" + enc)) == Weight(k) ==> forall i :: 0 <= i < |k| ==> k[i] != '='
  {
    var t, i := k + "=" + enc, IndexOf(k, '=');
    assert forall j :: 0 <= j < i ==> t[j] == k[j];
    IndexOfIs(t, '=', i);
    assert KeyOf(t) == k[..i];
    PrefixWeighsLess(k, i);
  }

  /** A key that is split, cut or trimmed weighs less in what is read. */
  lemma {:induction false} PairWeighs(k: string, enc: string)
    requires forall i :: 0 <= i < |enc| ==> enc[i] != '&'
    ensures var parts := Pieces(k + "=" + enc, '&');
            KeysOf(parts) <= Weight(k) && (KeysOf(parts) == Weight(k) ==> Whole(k))
    decreases |k|
  {
    hide Pieces, Kept, KeyOf;
    var t, i := k + "=" + enc, IndexOf(k, '&');
    if i == |k| {
      PiecesWhole(t, '&');
      KeptWeighs(t);
      KeyOfPair(k, enc);
      assert k != "" ==> t[0] == k[0];
    } else {
      var more := k[i + 1..];
      assert t[..i] == k[..i] && t[i + 1..] == more + "=" + enc;
      PiecesAt(t, '&', i);
      KeptWeighs(k[..i]);
      KeyIsLighter(k[..i]);
      PairWeighs(more, enc);
      KeysOfConcat(Kept(k[..i]), Pieces(more + "=" + enc, '&'));
      WeightSplit(k, i);
      assert k[i..] == [k[i]] + more;
      WeightConcat([k[i]], more);
      WeightOfOne(k[i]);
    }
  }

  lemma KeyIsLighter(t: string)
    ensures Weight(KeyOf(t)) <= Weight(t)
  {
    PrefixWeighsLess(t, IndexOf(t, '='));
    assert t[..|t|] == t;
  }

  function KeysWeight(p: Params): nat {
    if p == [] then 0 else KeysWeight(Init(p)) + Weight(Last(p).0)
  }

  lemma {:induction false} SerializedWeighs(p: Params)
    ensures var parts := Pieces(Serialize(p), '&');
            KeysOf(parts) <= KeysWeight(p) && (KeysOf(parts) == KeysWeight(p) ==> forall i :: 0 <= i < |p| ==>
              Whole(p[i].0))
  {
    hide Pieces, Encode, Whole;
    if p == [] {
      PiecesWhole("", '&');
    } else {
      var before, x := Init(p), Last(p);
      SerializedWeighs(before);
      EncodeIsClean(x.1);
      PairWeighs(x.0, Encode(x.1));
      if |p| > 1 {
        PiecesConcat(Serialize(before), Pair(x), '&');
        KeysOfConcat(Pieces(Serialize(before), '&'), Pieces(Pair(x), '&'));
        assert Serialize(p) == Serialize(before) + ['&'] + Pair(x);
      } else {
        assert before == [] && Serialize(p) == Pair(x);
      }
      assert forall i :: 0 <= i < |before| ==> before[i] == p[i];
    }
  }

  // ----- What is read from the parts -----

  lemma {:induction false} EmplacedWeighs(p: Params, k: string, v: string)
    ensures KeysWeight(Emplace(p, k, v)) == KeysWeight(p) + Weight(k)
  {
    if p == [] || !Less(k, Last(p).0) {
      assert Init(p + [(k, v)]) == p;
    } else {
      EmplacedWeighs(Init(p), k, v);
      assert Init(Emplace(Init(p), k, v) + [Last(p)]) == Emplace(Init(p), k, v);
    }
  }

  predicate ReadsItself(part: string) {
    Decode(KeyOf(part), true) == KeyOf(part)
  }

  /** What is read weighs no more than the parts; if it weighs as much, every key has been read as it was. */
  lemma {:induction false} ReadWeighs(parts: seq<string>)
    ensures var p := ParseParts(parts);
            && KeysWeight(p) <= KeysOf(parts)
            && (KeysWeight(p) == KeysOf(parts) ==>
                  (forall i :: 0 <= i < |parts| ==> ReadsItself(parts[i]))
                  && forall i :: 0 <= i < |p| ==> p[i].0 != "")
  {
    hide Decode, Emplace;
    if parts == [] {
    } else {
      var before, part := Init(parts), Last(parts);
      var (key, val) := Divided(part, '=');
      var q := ParseParts(before);
      ReadWeighs(before);
      DecodeWeighs(key);
      WeightBounds(key);
      EmplacedWeighs(q, Decode(key, true), Decode(val, true));
      NothingDecoded();
      if Decode(key, true) != "" && forall i :: 0 <= i < |q| ==> q[i].0 != "" {
        EmplacedKeys(q, Decode(key, true), Decode(val, true));
      }
      assert forall i :: 0 <= i < |before| ==> before[i] == parts[i];
    }
  }

  lemma {:induction false} EmplacedKeys(p: Params, k: string, v: string)
    requires k != "" && forall i :: 0 <= i < |p| ==> p[i].0 != ""
    ensures forall i :: 0 <= i < |Emplace(p, k, v)| ==> Emplace(p, k, v)[i].0 != ""
  {
    if p == [] || !Less(k, Last(p).0) {
    } else {
      EmplacedKeys(Init(p), k, v);
    }
  }

  // ----- The exact condition -----

  /** A map that comes back has only keys that are read as they are. */
  lemma ReadBackIsReadable(p: Params)
    requires Parse(Serialize(p)) == p
    ensures ReadableKeys(p)
  {
    hide Pieces, ParseParts, Serialize, Decode;
    var parts := Pieces(Serialize(p), '&');
    SerializedWeighs(p);
    ReadWeighs(parts);
    SerializedPieces(p);
    forall i | 0 <= i < |p|
      ensures ReadableKey(p[i].0)
    {
      TextAt(p, i);
      assert ReadsItself(parts[i]);
      KeyOfWhole(p[i]);
    }
  }

  lemma {:induction false} TextAt(p: Params, i: nat)
    requires i < |p|
    ensures |Texts(p)| == |p| && Texts(p)[i] == Pair(p[i])
  {
    if i == |p| - 1 {
      TextsLength(Init(p));
    } else {
      TextAt(Init(p), i);
    }
  }

  lemma {:induction false} TextsLength(p: Params)
    ensures |Texts(p)| == |p|
  {
    if p == [] {
    } else {
      TextsLength(Init(p));
    }
  }

  lemma KeyOfWhole(x: (string, string))
    requires Whole(x.0)
    ensures KeyOf(Pair(x)) == x.0
  {
    var t := Pair(x);
    assert forall j :: 0 <= j < |x.0| ==> t[j] == x.0[j];
    IndexOfIs(t, '=', |x.0|);
  }

  /** The round trip is exact precisely for maps without repeated pairs whose keys are read as they are. */
  lemma QueryRoundTripIff(p: Params)
    requires ByteValues(p) && Sorted(p)
    ensures Parse(Serialize(p)) == p <==> ReadableKeys(p) && NoDuplicates(p)
  {
    hide Parse, Serialize, ReadableKeys, Sorted;
    if ReadableKeys(p) {
      ParseSerialize(p);
      FirstOccurrencesIsAll(p);
    } else if Parse(Serialize(p)) == p {
      ReadBackIsReadable(p);
    }
  }
}
