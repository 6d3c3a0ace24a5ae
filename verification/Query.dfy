/** The percent coding of query parameters and the query string of a parameter map. */
module Query {
  import opened Lists
  import opened HttpText
  import opened Multimaps

  ghost predicate IsBytes(s: string) {
    forall i :: 0 <= i < |s| ==> s[i] as int < 256
  }

  // ----- Hexadecimal -----

  function HexDigit(c: char): Option<nat> {
    if IsDigit(c) then Some(c as int - '0' as int)
    else if 'A' <= c <= 'F' then Some(c as int - 'A' as int + 10)
    else if 'a' <= c <= 'f' then Some(c as int - 'a' as int + 10)
    else None
  }

  /** The number that s[i..i + cnt] spells, if it is all there and all hexadecimal. */
  function HexValue(s: string, i: nat, cnt: nat): Option<nat> {
    if cnt == 0 then Some(0)
    else if i + cnt > |s| then None
    else
      match HexValue(s, i, cnt - 1)
      case None => None
      case Some(v) => match HexDigit(s[i + cnt - 1]) case None => None case Some(d) => Some(16 * v + d)
  }

  lemma {:induction false} HexValueStops(s: string, i: nat, k: nat, cnt: nat)
    requires k < cnt && (i + k >= |s| || HexDigit(s[i + k]).None?)
    ensures HexValue(s, i, cnt) == None
    decreases cnt
  {
    if k >= cnt - 1 {
    } else {
      HexValueStops(s, i, k, cnt - 1);
    }
  }

  lemma {:induction false} HexValueBound(s: string, i: nat, cnt: nat)
    ensures HexValue(s, i, cnt).Some? && cnt > 0 ==> i + cnt <= |s|
    ensures HexValue(s, i, cnt).Some? && cnt == 2 ==> HexValue(s, i, cnt).value < 256
    ensures HexValue(s, i, cnt).Some? && cnt == 4 ==> HexValue(s, i, cnt).value < 0x10000
  {
    if cnt == 2 {
      assert HexValue(s, i, 0) == Some(0);
    } else if cnt == 4 {
      assert HexValue(s, i, 0) == Some(0);
      assert HexValue(s, i, 1).Some? ==> HexValue(s, i, 1).value < 16;
      assert HexValue(s, i, 2).Some? ==> HexValue(s, i, 2).value < 256;
    }
  }

  /** Reads cnt hexadecimal digits from position i; the end of the text stops it like any other character. */
  method FromHexToI(s: string, i: nat, cnt: nat) returns (v: Option<nat>)
    requires cnt > 0
    ensures v == HexValue(s, i, cnt)
  {
    if i >= |s| {
      HexValueStops(s, i, 0, cnt);
      return None;
    }
    var val, k := 0, 0;
    while k < cnt
      invariant 0 <= k <= cnt && i + k <= |s| && HexValue(s, i, k) == Some(val)
    {
      if i + k >= |s| || HexDigit(s[i + k]).None? {
        HexValueStops(s, i, k, cnt);
        return None;
      }
      val := val * 16 + HexDigit(s[i + k]).value;
      k := k + 1;
    }
    return Some(val);
  }

  /** UTF-8 for a code of at most four hexadecimal digits; surrogates give nothing. */
  function ToUtf8(code: nat): string
    requires code < 0x10000
  {
    if code < 0x80 then [code as char]
    else if code < 0x800 then [(0xC0 + code / 64) as char, (0x80 + code % 64) as char]
    else if 0xD800 <= code < 0xE000 then ""
    else [(0xE0 + code / 4096) as char, (0x80 + code / 64 % 64) as char, (0x80 + code % 64) as char]
  }

  // ----- Decoding -----

  /** What the character at i decodes to, and where decoding goes on. */
  function DecodeAt(s: string, i: nat, plus: bool): (r: (string, nat))
    requires i < |s|
    ensures i < r.1
  {
    if s[i] == '%' && i + 1 < |s| then
      if s[i + 1] == 'u' then
        HexValueBound(s, i + 2, 4);
        match HexValue(s, i + 2, 4) case Some(v) => (ToUtf8(v), i + 6) case None => ([s[i]], i + 1)
      else
        HexValueBound(s, i + 1, 2);
        match HexValue(s, i + 1, 2) case Some(v) => ([v as char], i + 3) case None => ([s[i]], i + 1)
    else if plus && s[i] == '+' then (" ", i + 1)
    else ([s[i]], i + 1)
  }

  function DecodeFrom(s: string, i: nat, plus: bool): string
    decreases |s| - i
  {
    if i >= |s| then "" else DecodeAt(s, i, plus).0 + DecodeFrom(s, DecodeAt(s, i, plus).1, plus)
  }

  function Decode(s: string, plus: bool): string {
    DecodeFrom(s, 0, plus)
  }

  lemma DecodeStep(s: string, i: nat, plus: bool, before: string)
    requires i < |s|
    ensures before + DecodeFrom(s, i, plus) ==
            before + DecodeAt(s, i, plus).0 + DecodeFrom(s, DecodeAt(s, i, plus).1, plus)
  {
    var (now, next) := DecodeAt(s, i, plus);
    assert before + (now + DecodeFrom(s, next, plus)) == before + now + DecodeFrom(s, next, plus);
  }

  lemma DecodeEnd(s: string, i: nat, plus: bool, before: string)
    requires i >= |s|
    ensures before + DecodeFrom(s, i, plus) == before
  {
  }

  lemma NothingDecoded()
    ensures Decode("", true) == ""
  {
  }

  method DecodeUrl(s: string, convertPlusToSpace: bool) returns (result: string)
    ensures result == Decode(s, convertPlusToSpace)
  {
    hide DecodeFrom, ToUtf8, HexValue;
    result := "";
    var i := 0;
    while i < |s|
      invariant 0 <= i
      invariant result + DecodeFrom(s, i, convertPlusToSpace) == Decode(s, convertPlusToSpace)
      decreases |s| - i
    {
      DecodeStep(s, i, convertPlusToSpace, result);
      ghost var at, before := i, result;
      if s[i] == '%' && i + 1 < |s| {
        if s[i + 1] == 'u' {
          var val := FromHexToI(s, i + 2, 4);
          if val.Some? {
            HexValueBound(s, i + 2, 4);
            result := result + ToUtf8(val.value);
            i := i + 5;
          } else {
            result := result + [s[i]];
          }
        } else {
          var val := FromHexToI(s, i + 1, 2);
          if val.Some? {
            HexValueBound(s, i + 1, 2);
            result := result + [val.value as char];
            i := i + 2;
          } else {
            result := result + [s[i]];
          }
        }
      } else if convertPlusToSpace && s[i] == '+' {
        result := result + " ";
      } else {
        result := result + [s[i]];
      }
      i := i + 1;
      assert (result, i) == (before + DecodeAt(s, at, convertPlusToSpace).0, DecodeAt(s, at, convertPlusToSpace).1);
    }
    DecodeEnd(s, i, convertPlusToSpace, result);
  }

  // ----- Encoding -----

  predicate IsPlain(c: char) {
    IsAlnum(c) || c in "-_.!~*'()"
  }

  predicate AllPlain(s: string) {
    forall i :: 0 <= i < |s| ==> IsPlain(s[i])
  }

  function UpperHex(d: nat): (c: char)
    requires d < 16
    ensures HexDigit(c) == Some(d) && c != 'u' && IsPlain(c)
  {
    if d < 10 then ('0' as int + d) as char else ('A' as int + d - 10) as char
  }

  function EncodeChar(c: char): string {
    if IsPlain(c) then [c] else ['%', UpperHex(c as int / 16 % 16), UpperHex(c as int % 16)]
  }

  function Encode(s: string): string {
    if s == "" then "" else EncodeChar(s[0]) + Encode(s[1..])
  }

  lemma {:induction false} EncodeSplit(a: string, b: string)
    ensures Encode(a + b) == Encode(a) + Encode(b)
  {
    if a == "" {
      assert a + b == b;
    } else {
      assert (a + b)[1..] == a[1..] + b;
      EncodeSplit(a[1..], b);
    }
  }

  lemma EncodeNext(value: string, i: nat)
    requires i < |value|
    ensures Encode(value[..i + 1]) == Encode(value[..i]) + EncodeChar(value[i])
  {
    assert value[..i + 1] == value[..i] + [value[i]];
    EncodeSplit(value[..i], [value[i]]);
    assert [value[i]][1..] == "";
  }

  method EncodeQueryParam(value: string) returns (escaped: string)
    ensures escaped == Encode(value)
  {
    escaped := "";
    var i := 0;
    while i < |value|
      invariant 0 <= i <= |value| && escaped == Encode(value[..i])
    {
      var c := value[i];
      EncodeNext(value, i);
      if IsPlain(c) {
        escaped := escaped + [c];
      } else {
        escaped := escaped + ['%', UpperHex(c as int / 16 % 16), UpperHex(c as int % 16)];
      }
      i := i + 1;
    }
    assert value[..|value|] == value;
  }

  /** Decoding undoes encoding, whatever comes before in the text and whether or not plus means space. */
  lemma {:induction false} DecodeEncodeFrom(before: string, s: string, plus: bool)
    requires IsBytes(s)
    ensures DecodeFrom(before + Encode(s), |before|, plus) == s
    decreases |s|
  {
    if s == "" {
    } else {
      var t := before + Encode(s);
      var next := before + EncodeChar(s[0]);
      assert t == next + Encode(s[1..]);
      DecodeEncodeFrom(next, s[1..], plus);
      DecodeOne(before, s[0], Encode(s[1..]), plus);
    }
  }

  lemma DecodeOne(before: string, c: char, rest: string, plus: bool)
    requires c as int < 256
    ensures DecodeAt(before + EncodeChar(c) + rest, |before|, plus) == ([c], |before| + |EncodeChar(c)|)
  {
    hide ToUtf8, HexValue;
    var t, i := before + EncodeChar(c) + rest, |before|;
    assert forall k :: 0 <= k < |EncodeChar(c)| ==> t[i + k] == EncodeChar(c)[k];
    if !IsPlain(c) {
      var n := c as int;
      assert t[i] == '%' && t[i + 1] == UpperHex(n / 16) && t[i + 2] == UpperHex(n % 16) by {
        assert EncodeChar(c) == ['%', UpperHex(n / 16), UpperHex(n % 16)];
      }
      TwoDigits(t, i + 1, n);
    }
  }

  lemma TwoDigits(t: string, i: nat, n: nat)
    requires i + 2 <= |t| && n < 256 && t[i] == UpperHex(n / 16) && t[i + 1] == UpperHex(n % 16)
    ensures HexValue(t, i, 2) == Some(n)
  {
    assert HexValue(t, i, 0) == Some(0);
    assert HexValue(t, i, 1) == Some(n / 16);
  }

  lemma DecodeEncode(s: string, plus: bool)
    requires IsBytes(s)
    ensures Decode(Encode(s), plus) == s
  {
    DecodeEncodeFrom("", s, plus);
    assert "" + Encode(s) == Encode(s);
  }

  lemma {:induction false} DecodePlain(s: string, i: nat, plus: bool)
    requires AllPlain(s) && i <= |s|
    ensures DecodeFrom(s, i, plus) == s[i..]
    decreases |s| - i
  {
    if i >= |s| {
    } else {
      DecodePlain(s, i + 1, plus);
    }
  }

  // ----- Parameter maps -----

  type Params = Multimap<string>

  function Pair(x: (string, string)): string {
    x.0 + "=" + Encode(x.1)
  }

  function Serialize(p: Params): string {
    if p == [] then "" else Serialize(Init(p)) + (if |p| > 1 then "&" else "") + Pair(Last(p))
  }

  method ParamsToQueryStr(params: Params) returns (query: string)
    ensures query == Serialize(params)
  {
    query := "";
    var i := 0;
    while i < |params|
      invariant 0 <= i <= |params| && query == Serialize(params[..i])
    {
      assert Init(params[..i + 1]) == params[..i];
      if i != 0 {
        query := query + "&";
      }
      query := query + params[i].0;
      query := query + "=";
      var value := EncodeQueryParam(params[i].1);
      query := query + value;
      i := i + 1;
      assert Last(params[..i]) == params[i - 1];
    }
    assert params[..|params|] == params;
  }

  function Divided(kv: string, d: char): (string, string) {
    var i := IndexOf(kv, d);
    if i < |kv| then (kv[..i], kv[i + 1..]) else (kv, "")
  }

  /** Texts already seen are skipped, and so are those without a key. */
  function ParseParts(parts: seq<string>): Params {
    if parts == [] then []
    else
      var before, kv := ParseParts(Init(parts)), Last(parts);
      var (key, val) := Divided(kv, '=');
      if kv in Init(parts) || key == "" then before else Emplace(before, Decode(key, true), Decode(val, true))
  }

  function Parse(s: string): Params {
    ParseParts(Pieces(s, '&'))
  }

  lemma ParseNext(parts: seq<string>, i: nat)
    requires i < |parts|
    ensures Elements(parts[..i + 1]) == Elements(parts[..i]) + {parts[i]}
    ensures var before, (key, val) := ParseParts(parts[..i]), Divided(parts[i], '=');
            ParseParts(parts[..i + 1]) ==
              if parts[i] in Elements(parts[..i]) || key == "" then before
                 else Emplace(before, Decode(key, true), Decode(val, true))
  {
    var now := parts[..i + 1];
    assert Init(now) == parts[..i] && Last(now) == parts[i];
    assert now == parts[..i] + [parts[i]];
  }

  method ParseQueryText(s: string) returns (params: Params)
    ensures params == Parse(s)
  {
    hide Pieces, Divided, ParseParts, Emplace, Decode;
    var parts := Split(s, '&');
    var cache: set<string> := {};
    params := [];
    NothingParsed();
    assert parts[..0] == [];
    var i := 0;
    while i < |parts|
      invariant 0 <= i <= |parts| && params == ParseParts(parts[..i]) && cache == Elements(parts[..i])
    {
      var kv := parts[i];
      ParseNext(parts, i);
      if kv !in cache {
        var (key, val) := Divided(kv, '=');
        if key != "" {
          var k := DecodeUrl(key, true);
          var v := DecodeUrl(val, true);
          params := Emplace(params, k, v);
        }
      }
      cache := cache + {kv};
      i := i + 1;
    }
    assert parts[..|parts|] == parts;
  }

  lemma NothingParsed()
    ensures ParseParts([]) == [] && Elements<string>([]) == {}
  {
  }

  // ----- Round trip -----

  /** A key that is neither split nor cut nor trimmed when it is read. */
  predicate Whole(k: string) {
    (k == "" || !IsBlank(k[0])) && forall i :: 0 <= i < |k| ==> k[i] != '&' && k[i] != '='
  }

  /** Keys are written as they are, so they must be found and read as they are. */
  predicate ReadableKey(k: string) {
    k != "" && Whole(k) && Decode(k, true) == k
  }

  lemma PlainIsReadable(k: string)
    requires k != "" && AllPlain(k)
    ensures ReadableKey(k)
  {
    DecodePlain(k, 0, true);
  }

  predicate ReadableKeys(p: Params) {
    forall i :: 0 <= i < |p| ==> ReadableKey(p[i].0)
  }

  ghost predicate ByteValues(p: Params) {
    forall i :: 0 <= i < |p| ==> IsBytes(p[i].1)
  }

  function FirstOccurrences<T(==)>(s: seq<T>): seq<T> {
    if s == [] then []
    else if Last(s) in Init(s) then FirstOccurrences(Init(s))
    else FirstOccurrences(Init(s)) + [Last(s)]
  }

  lemma {:induction false} FirstOccurrencesIsAll<T>(s: seq<T>)
    ensures |FirstOccurrences(s)| <= |s|
    ensures FirstOccurrences(s) == s <==> NoDuplicates(s)
  {
    if s == [] {
    } else {
      FirstOccurrencesIsAll(Init(s));
      assert s == Init(s) + [Last(s)];
      assert forall i :: 0 <= i < |s| - 1 ==> Init(s)[i] == s[i];
    }
  }

  lemma {:induction false} FirstOccurrencesMembers<T>(s: seq<T>, x: T)
    ensures x in FirstOccurrences(s) <==> x in s
  {
    if s == [] {
    } else {
      FirstOccurrencesMembers(Init(s), x);
      assert s == Init(s) + [Last(s)];
    }
  }

  lemma {:induction false} PiecesConcat(a: string, b: string, d: char)
    ensures Pieces(a + [d] + b, d) == Pieces(a, d) + Pieces(b, d)
    decreases |a|
  {
    var i, t := IndexOf(a, d), a + [d] + b;
    hide Kept, Pieces;
    if i < |a| {
      assert t[..i] == a[..i] && t[i + 1..] == a[i + 1..] + [d] + b;
      PiecesAt(t, d, i);
      PiecesAt(a, d, i);
      PiecesConcat(a[i + 1..], b, d);
      assert Kept(a[..i]) + (Pieces(a[i + 1..], d) + Pieces(b, d)) ==
             Kept(a[..i]) + Pieces(a[i + 1..], d) + Pieces(b, d);
    } else {
      PiecesWhole(a, d);
      assert t[..i] == a && t[i + 1..] == b;
      PiecesAt(t, d, i);
    }
  }

  lemma {:induction false} EncodeIsClean(s: string)
    ensures forall i :: 0 <= i < |Encode(s)| ==> Encode(s)[i] == '%' || IsPlain(Encode(s)[i])
  {
    if s == "" {
    } else {
      EncodeIsClean(s[1..]);
    }
  }

  lemma PairIsOnePiece(x: (string, string))
    requires Whole(x.0)
    ensures Pieces(Pair(x), '&') == [Pair(x)]
  {
    hide Pieces, Encode;
    var t := Pair(x);
    EncodeIsClean(x.1);
    PiecesWhole(t, '&');
    TrimVisible(t);
  }

  function Texts(p: Params): seq<string> {
    if p == [] then [] else Texts(Init(p)) + [Pair(Last(p))]
  }

  lemma {:induction false} SerializedPieces(p: Params)
    requires forall i :: 0 <= i < |p| ==> Whole(p[i].0)
    ensures Pieces(Serialize(p), '&') == Texts(p)
  {
    if p != [] {
      assert forall i :: 0 <= i < |p| - 1 ==> Init(p)[i] == p[i];
      SerializedPieces(Init(p));
      PairIsOnePiece(Last(p));
      if |p| > 1 {
        PiecesConcat(Serialize(Init(p)), Pair(Last(p)), '&');
      } else {
        assert Init(p) == [];
        assert Serialize(p) == Pair(Last(p));
      }
    } else {
      PiecesWhole("", '&');
    }
  }

  lemma PairDivides(x: (string, string))
    requires ReadableKey(x.0) && IsBytes(x.1)
    ensures Divided(Pair(x), '=') == (x.0, Encode(x.1))
    ensures Decode(x.0, true) == x.0 && Decode(Encode(x.1), true) == x.1
  {
    var t := Pair(x);
    assert forall k :: 0 <= k < |x.0| ==> t[k] == x.0[k];
    IndexOfIs(t, '=', |x.0|);
    assert t[..|x.0|] == x.0 && t[|x.0| + 1..] == Encode(x.1);
    DecodeEncode(x.1, true);
  }

  lemma PairInjective(x: (string, string), y: (string, string))
    requires ReadableKey(x.0) && IsBytes(x.1)
    requires ReadableKey(y.0) && IsBytes(y.1)
    ensures Pair(x) == Pair(y) <==> x == y
  {
    PairDivides(x);
    PairDivides(y);
  }

  lemma {:induction false} TextIsRepeated(p: Params, x: (string, string))
    requires ReadableKeys(p) && ByteValues(p) && ReadableKey(x.0) && IsBytes(x.1)
    ensures Pair(x) in Texts(p) <==> x in p
  {
    if p == [] {
    } else {
      assert forall i :: 0 <= i < |p| - 1 ==> Init(p)[i] == p[i];
      TextIsRepeated(Init(p), x);
      PairInjective(x, Last(p));
      assert p == Init(p) + [Last(p)];
    }
  }

  lemma {:induction false} ParseTexts(p: Params)
    requires ReadableKeys(p) && ByteValues(p) && Sorted(p)
    ensures ParseParts(Texts(p)) == FirstOccurrences(p)
  {
    if p == [] {
    } else {
      var before, x := Init(p), Last(p);
      assert forall i :: 0 <= i < |p| - 1 ==> before[i] == p[i];
      ParseTexts(before);
      TextIsRepeated(before, x);
      PairDivides(x);
      assert Init(Texts(p)) == Texts(before) && Last(Texts(p)) == Pair(x);
      if x !in before {
        EmplaceLast(FirstOccurrences(before), before, x);
      }
    }
  }

  lemma EmplaceLast(q: Params, before: Params, x: (string, string))
    requires forall i :: 0 <= i < |before| ==> !Less(x.0, before[i].0)
    requires q == FirstOccurrences(before)
    ensures Emplace(q, x.0, x.1) == q + [x]
  {
    if q != [] {
      FirstOccurrencesMembers(before, Last(q));
    }
  }

  /** Reading back a query string gives the map without the repetitions of a pair. */
  lemma ParseSerialize(p: Params)
    requires ReadableKeys(p) && ByteValues(p) && Sorted(p)
    ensures Parse(Serialize(p)) == FirstOccurrences(p)
  {
    SerializedPieces(p);
    ParseTexts(p);
  }
}
