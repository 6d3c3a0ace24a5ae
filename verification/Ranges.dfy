/** Byte ranges: bringing a request's ranges into bounds, and the size of the multipart answer to them. */
module Ranges {
  import opened Lists
  import opened HttpText

  const RANGE_MAX_COUNT := 1024

  /** First and last position; -1 stands for a position that was not given. */
  type Range = (int, int)

  // ----- Normalisation -----

  /** A missing first position asks for the last bytes, a missing or too large last position for the rest. */
  function Normalised(r: Range, len: nat): Range {
    var whole := if r.0 == -1 && r.1 == -1 then (0, len as int) else r;
    var suffix := if whole.0 == -1 then (len - whole.1, len - 1) else whole;
    if suffix.1 == -1 || suffix.1 >= len then (suffix.0, len - 1) else suffix
  }

  function AllNormalised(rs: seq<Range>, len: nat): (n: seq<Range>)
    ensures |n| == |rs| && forall i :: 0 <= i < |rs| ==> n[i] == Normalised(rs[i], len)
  {
    if rs == [] then [] else AllNormalised(Init(rs), len) + [Normalised(Last(rs), len)]
  }

  /** Which positions of the content a request means. */
  predicate Asks(r: Range, first: int, last: int, len: nat) {
    && (r.0 == -1 && r.1 == -1 ==> first == 0 && last == len - 1)
    && (r.0 == -1 && r.1 != -1 ==> first == len - r.1 && last == len - 1)
    && (r.0 != -1 && (r.1 == -1 || r.1 >= len) ==> first == r.0 && last == len - 1)
    && (r.0 != -1 && r.1 != -1 && r.1 < len ==> first == r.0 && last == r.1)
  }

  predicate InBounds(r: Range, len: nat) {
    0 <= r.0 <= r.1 < len
  }

  predicate AllInBounds(rs: seq<Range>, len: nat) {
    forall i :: 0 <= i < |rs| ==> InBounds(rs[i], len)
  }

  predicate Ascending(rs: seq<Range>) {
    forall i :: 0 < i < |rs| ==> rs[i - 1].0 < rs[i].0
  }

  function MaxLast(rs: seq<Range>): int {
    if rs == [] then -1 else if MaxLast(Init(rs)) < Last(rs).1 then Last(rs).1 else MaxLast(Init(rs))
  }

  /** How many ranges begin no later than where some earlier range ends. */
  function Overlaps(rs: seq<Range>): nat {
    if rs == [] then 0 else Overlaps(Init(rs)) + if Last(rs).0 <= MaxLast(Init(rs)) then 1 else 0
  }

  ghost predicate Acceptable(rs: seq<Range>, len: nat) {
    AllInBounds(rs, len) && Ascending(rs) && Overlaps(rs) <= 2
  }

  lemma {:induction false} OverlapsGrow(rs: seq<Range>, n: nat)
    requires n <= |rs|
    ensures Overlaps(rs[..n]) <= Overlaps(rs)
  {
    if n < |rs| {
      assert Init(rs)[..n] == rs[..n];
      OverlapsGrow(Init(rs), n);
    } else {
      assert rs[..n] == rs;
    }
  }

  /** What is unacceptable stays so, whatever follows. */
  lemma PrefixAcceptable(rs: seq<Range>, len: nat, n: nat)
    requires n <= |rs| && Acceptable(rs, len)
    ensures Acceptable(rs[..n], len)
  {
    OverlapsGrow(rs, n);
  }

  lemma NextRange(rs: seq<Range>, len: nat, r: Range)
    requires Acceptable(rs, len)
    ensures Acceptable(rs + [r], len) <==>
              InBounds(r, len) && (rs != [] ==> Last(rs).0 < r.0)
                && Overlaps(rs) + (if r.0 <= MaxLast(rs) then 1 else 0) <= 2
    ensures MaxLast(rs + [r]) == if MaxLast(rs) < r.1 then r.1 else MaxLast(rs)
    ensures Overlaps(rs + [r]) == Overlaps(rs) + if r.0 <= MaxLast(rs) then 1 else 0
  {
    var s := rs + [r];
    assert Init(s) == rs && Last(s) == r;
    NextInBounds(rs, len, r);
    NextAscends(rs, r);
    hide AllInBounds, Ascending, InBounds;
  }

  lemma NextInBounds(rs: seq<Range>, len: nat, r: Range)
    ensures AllInBounds(rs + [r], len) <==> AllInBounds(rs, len) && InBounds(r, len)
  {
    var s := rs + [r];
    assert s[|rs|] == r && forall i :: 0 <= i < |rs| ==> s[i] == rs[i];
  }

  lemma NextAscends(rs: seq<Range>, r: Range)
    ensures Ascending(rs + [r]) <==> Ascending(rs) && (rs != [] ==> Last(rs).0 < r.0)
  {
    var s := rs + [r];
    assert s[|rs|] == r && forall i :: 0 <= i < |rs| ==> s[i] == rs[i];
    assert rs != [] ==> s[|rs| - 1] == Last(rs);
  }

  /** The requested ranges, rewritten in place up to and including the first that is refused. */
  method RangeError(ranges: array<Range>, status: int, contentLength: nat, bodySize: nat) returns (error: bool)
    modifies ranges
    ensures var len := if contentLength != 0 then contentLength else bodySize;
            var applies := ranges.Length > 0 && 200 <= status < 300;
            error <==>
              applies && (ranges.Length > 1024 || !Acceptable(AllNormalised(old(ranges[..]), len), len))
    ensures var len := if contentLength != 0 then contentLength else bodySize;
            var applies := ranges.Length > 0 && 200 <= status < 300;
            !error ==> ranges[..] == if applies then AllNormalised(old(ranges[..]), len) else old(ranges[..])
    ensures var len := if contentLength != 0 then contentLength else bodySize;
            !error && 200 <= status < 300 ==>
              forall i :: 0 <= i < ranges.Length ==>
                InBounds(ranges[i], len) && Asks(old(ranges[i]), ranges[i].0, ranges[i].1, len)
    ensures var len := if contentLength != 0 then contentLength else bodySize;
            forall i :: 0 <= i < ranges.Length ==>
              ranges[i] == old(ranges[i]) || ranges[i] == Normalised(old(ranges[i]), len)
  {
    hide Normalised, Overlaps, MaxLast, Acceptable;
    if ranges.Length == 0 || status < 200 || 300 <= status {
      return false;
    }
    var len := if contentLength != 0 then contentLength else bodySize;
    ghost var all := AllNormalised(ranges[..], len);
    if ranges.Length > RANGE_MAX_COUNT {
      return true;
    }
    NoRanges(len);
    assert all[..0] == [];
    var prevFirst, prevLast, overlaps, i := -1, -1, 0, 0;
    while i < ranges.Length
      invariant 0 <= i <= ranges.Length
      invariant forall k :: 0 <= k < i ==> ranges[k] == all[k]
      invariant forall k :: i <= k < ranges.Length ==> ranges[k] == old(ranges[k])
      invariant Acceptable(all[..i], len)
      invariant forall k :: 0 <= k < i ==>
                  InBounds(ranges[k], len) && Asks(old(ranges[k]), ranges[k].0, ranges[k].1, len)
      invariant prevFirst == (if i == 0 then -1 else all[i - 1].0)
      invariant prevLast == MaxLast(all[..i]) && overlaps == Overlaps(all[..i])
    {
      var first, last := Rewrite(ranges, i, len);
      RangeCheck(all, len, i);
      if !(0 <= first <= last <= len - 1) {
        return true;
      }
      if first <= prevFirst {
        return true;
      }
      if first <= prevLast {
        overlaps := overlaps + 1;
        if overlaps > 2 {
          return true;
        }
      }
      prevFirst := if prevFirst < first then first else prevFirst;
      prevLast := if prevLast < last then last else prevLast;
      i := i + 1;
    }
    assert all[..ranges.Length] == all && ranges[..] == all;
    return false;
  }

  /** One range brought into bounds where it stands. */
  method Rewrite(ranges: array<Range>, i: nat, len: nat) returns (first: int, last: int)
    requires i < ranges.Length
    modifies ranges
    ensures ranges[i] == (first, last) == Normalised(old(ranges[i]), len) && Asks(old(ranges[i]), first, last, len)
    ensures forall k :: 0 <= k < ranges.Length && k != i ==> ranges[k] == old(ranges[k])
  {
    first, last := ranges[i].0, ranges[i].1;
    if first == -1 && last == -1 {
      first, last := 0, len;
    }
    if first == -1 {
      first := len - last;
      last := len - 1;
    }
    if last == -1 || last >= len {
      last := len - 1;
    }
    ranges[i] := (first, last);
  }

  lemma NoRanges(len: nat)
    ensures Acceptable([], len) && MaxLast([]) == -1 && Overlaps([]) == 0
  {
  }

  /** What the checks on range i decide. */
  lemma RangeCheck(all: seq<Range>, len: nat, i: nat)
    requires i < |all| && Acceptable(all[..i], len)
    ensures var s, r := all[..i], all[i];
            var fine := InBounds(r, len) && (if i == 0 then -1 else all[i - 1].0) < r.0
                        && Overlaps(s) + (if r.0 <= MaxLast(s) then 1 else 0) <= 2;
            && (fine <==> Acceptable(all[..i + 1], len)) && (!fine ==> !Acceptable(all, len))
            && MaxLast(all[..i + 1]) == (if MaxLast(s) < r.1 then r.1 else MaxLast(s))
            && Overlaps(all[..i + 1]) == Overlaps(s) + (if r.0 <= MaxLast(s) then 1 else 0)
  {
    var s := all[..i];
    assert all[..i + 1] == s + [all[i]];
    assert i > 0 ==> Last(s) == all[i - 1];
    NextRange(s, len, all[i]);
    if Acceptable(all, len) {
      PrefixAcceptable(all, len, i + 1);
    }
  }

  // ----- What is acceptable, and what it costs -----

  predicate BeginsInside(rs: seq<Range>, i: nat)
    requires i < |rs|
  {
    exists j :: 0 <= j < i && rs[j].0 <= rs[i].0 <= rs[j].1
  }

  /** The ranges that begin inside an earlier one. */
  function Overlapping(rs: seq<Range>): set<nat> {
    set i: nat | i < |rs| && BeginsInside(rs, i)
  }

  lemma {:induction false} MaxLastIsReached(rs: seq<Range>, len: nat)
    requires AllInBounds(rs, len)
    ensures forall j :: 0 <= j < |rs| ==> rs[j].1 <= MaxLast(rs)
    ensures MaxLast(rs) == -1 || exists j :: 0 <= j < |rs| && rs[j].1 == MaxLast(rs)
  {
    if rs == [] {
    } else {
      assert forall i :: 0 <= i < |rs| - 1 ==> Init(rs)[i] == rs[i];
      MaxLastIsReached(Init(rs), len);
      if MaxLast(Init(rs)) < Last(rs).1 {
        assert rs[|rs| - 1].1 == MaxLast(rs);
      } else if MaxLast(rs) != -1 {
        var j :| 0 <= j < |Init(rs)| && Init(rs)[j].1 == MaxLast(rs);
        assert rs[j].1 == MaxLast(rs);
      }
    }
  }

  lemma {:induction false} AscendingAll(rs: seq<Range>, j: nat, i: nat)
    requires Ascending(rs) && j < i < |rs|
    ensures rs[j].0 < rs[i].0
  {
    if j == i - 1 {
    } else {
      AscendingAll(rs, j, i - 1);
    }
  }

  lemma {:induction false} OverlapsAreCounted(rs: seq<Range>, len: nat)
    requires AllInBounds(rs, len) && Ascending(rs)
    ensures Overlaps(rs) == |Overlapping(rs)|
  {
    if rs == [] {
      assert Overlapping(rs) == {};
    } else {
      LastOverlaps(rs, len);
      OverlapsAreCounted(Init(rs), len);
      OverlappingOfAll(rs);
    }
  }

  lemma OverlappingOfAll(rs: seq<Range>)
    requires rs != []
    ensures var before, n := Overlapping(Init(rs)), |rs| - 1;
            Overlapping(rs) == (if BeginsInside(rs, n) then before + {n} else before) && n !in before
  {
    var before, n := Init(rs), |rs| - 1;
    forall i: nat | i < n
      ensures BeginsInside(rs, i) <==> BeginsInside(before, i)
    {
      assert forall j :: 0 <= j <= i ==> before[j] == rs[j];
    }
  }

  lemma LastOverlaps(rs: seq<Range>, len: nat)
    requires AllInBounds(rs, len) && Ascending(rs) && rs != []
    ensures var n := |rs| - 1;
            BeginsInside(rs, n) <==> rs[n].0 <= MaxLast(Init(rs))
    ensures AllInBounds(Init(rs), len) && Ascending(Init(rs))
  {
    var before, n := Init(rs), |rs| - 1;
    assert forall i :: 0 <= i < n ==> before[i] == rs[i];
    MaxLastIsReached(before, len);
    assert InBounds(rs[n], len);
    if rs[n].0 <= MaxLast(before) {
      var j :| 0 <= j < n && before[j].1 == MaxLast(before);
      AscendingAll(rs, j, n);
      assert rs[j].0 <= rs[n].0 <= rs[j].1;
    }
  }

  /** Acceptable are ranges within the content, each beginning behind the one before it, of which at most two begin
      inside an earlier one. */
  lemma AcceptableIff(rs: seq<Range>, len: nat)
    ensures Acceptable(rs, len) <==>
              && (forall i :: 0 <= i < |rs| ==> 0 <= rs[i].0 <= rs[i].1 < len)
              && (forall i :: 0 < i < |rs| ==> rs[i - 1].0 < rs[i].0)
              && |Overlapping(rs)| <= 2
  {
    if AllInBounds(rs, len) && Ascending(rs) {
      OverlapsAreCounted(rs, len);
    }
  }

  /** A range of the content as offset and length. */
  function OffsetAndLength(r: Range, len: nat): (ol: (nat, nat))
    requires InBounds(r, len)
    ensures ol.1 > 0 && ol.0 + ol.1 <= len
  {
    (r.0, r.1 - r.0 + 1)
  }

  function TotalBytes(rs: seq<Range>): int {
    if rs == [] then 0 else TotalBytes(Init(rs)) + Last(rs).1 - Last(rs).0 + 1
  }

  lemma {:induction false} BytesBound(rs: seq<Range>, len: nat)
    requires AllInBounds(rs, len)
    ensures TotalBytes(rs) <= MaxLast(rs) + 1 + Overlaps(rs) * len
    ensures -1 <= MaxLast(rs) < len || rs == []
  {
    if rs == [] {
    } else {
      assert forall i :: 0 <= i < |rs| - 1 ==> Init(rs)[i] == rs[i];
      BytesBound(Init(rs), len);
      var r := Last(rs);
      assert InBounds(rs[|rs| - 1], len);
      if r.0 <= MaxLast(Init(rs)) {
        assert Overlaps(rs) * len == Overlaps(Init(rs)) * len + len;
      }
    }
  }

  lemma AtMostTwice(n: nat, len: nat)
    requires n <= 2
    ensures n * len <= 2 * len
  {
  }

  /** The overlap limit bounds the work: an accepted request is answered with at most three times the content. */
  lemma AcceptedRangesAreBounded(rs: seq<Range>, len: nat)
    requires Acceptable(rs, len)
    ensures TotalBytes(rs) <= 3 * len
  {
    BytesBound(rs, len);
    AtMostTwice(Overlaps(rs), len);
  }

  // ----- The multipart answer -----

  function Decimal(n: nat): string {
    if n < 10 then [('0' as int + n) as char] else Decimal(n / 10) + [('0' as int + n % 10) as char]
  }

  function ContentRange(ol: (nat, nat), len: nat): string
    requires ol.1 > 0
  {
    "bytes " + Decimal(ol.0) + "-" + Decimal(ol.0 + ol.1 - 1) + "/" + Decimal(len)
  }

  /** Everything of one part in front of its bytes. */
  function PartHead(r: Range, boundary: string, contentType: string, len: nat): string
    requires InBounds(r, len)
  {
    DASH + boundary + CRLF
    + (if contentType != "" then "Content-Type: " + contentType + CRLF else "")
    + "Content-Range: " + ContentRange(OffsetAndLength(r, len), len) + CRLF + CRLF
  }

  function PartBytes(r: Range, body: string): string
    requires InBounds(r, |body|)
  {
    body[r.0..r.1 + 1]
  }

  function Parts(rs: seq<Range>, boundary: string, contentType: string, body: string): string
    requires AllInBounds(rs, |body|)
  {
    if rs == [] then ""
    else Parts(Init(rs), boundary, contentType, body) + PartHead(Last(rs), boundary, contentType, |body|)
         + PartBytes(Last(rs), body) + CRLF
  }

  function RangesData(rs: seq<Range>, boundary: string, contentType: string, body: string): string
    requires AllInBounds(rs, |body|)
  {
    Parts(rs, boundary, contentType, body) + (DASH + boundary + DASH)
  }

  lemma NextPart(rs: seq<Range>, boundary: string, contentType: string, body: string, i: nat)
    requires AllInBounds(rs, |body|) && i < |rs|
    ensures Parts(rs[..i + 1], boundary, contentType, body) ==
            Parts(rs[..i], boundary, contentType, body) + PartHead(rs[i], boundary, contentType, |body|) +
              PartBytes(rs[i], body) + CRLF
  {
    assert Init(rs[..i + 1]) == rs[..i] && Last(rs[..i + 1]) == rs[i];
  }

  method MakeMultipartRangesData(rs: seq<Range>, boundary: string, contentType: string, body: string)
    returns (data: string)
    requires AllInBounds(rs, |body|)
    ensures data == RangesData(rs, boundary, contentType, body)
  {
    hide Parts, ContentRange;
    NoParts(boundary, contentType, body);
    data := "";
    assert rs[..0] == [];
    var i := 0;
    while i < |rs|
      invariant 0 <= i <= |rs| && data == Parts(rs[..i], boundary, contentType, body)
    {
      NextPart(rs, boundary, contentType, body, i);
      ghost var before := data;
      data := data + DASH;
      data := data + boundary;
      data := data + CRLF;
      if contentType != "" {
        data := data + "Content-Type: ";
        data := data + contentType;
        data := data + CRLF;
      }
      var ol := OffsetAndLength(rs[i], |body|);
      data := data + "Content-Range: ";
      data := data + ContentRange(ol, |body|);
      data := data + CRLF;
      data := data + CRLF;
      assert data == before + PartHead(rs[i], boundary, contentType, |body|);
      data := data + body[ol.0..ol.0 + ol.1];
      data := data + CRLF;
      i := i + 1;
    }
    assert rs[..|rs|] == rs;
    data := data + DASH;
    data := data + boundary;
    data := data + DASH;
  }

  lemma NoParts(boundary: string, contentType: string, body: string)
    ensures Parts([], boundary, contentType, body) == ""
  {
  }

  /** The same walk, adding up sizes; the content itself is not needed. */
  method GetMultipartRangesDataLength(rs: seq<Range>, boundary: string, contentType: string, contentLength: nat,
                                      ghost body: string)
    returns (length: nat)
    requires |body| == contentLength && AllInBounds(rs, contentLength)
    ensures length == |RangesData(rs, boundary, contentType, body)|
  {
    hide Parts, ContentRange;
    NoParts(boundary, contentType, body);
    length := 0;
    assert rs[..0] == [];
    var i := 0;
    while i < |rs|
      invariant 0 <= i <= |rs| && length == |Parts(rs[..i], boundary, contentType, body)|
    {
      NextPart(rs, boundary, contentType, body, i);
      length := length + |DASH|;
      length := length + |boundary|;
      length := length + |CRLF|;
      if contentType != "" {
        length := length + |"Content-Type: "|;
        length := length + |contentType|;
        length := length + |CRLF|;
      }
      var ol := OffsetAndLength(rs[i], contentLength);
      length := length + |"Content-Range: "|;
      length := length + |ContentRange(ol, contentLength)|;
      length := length + |CRLF|;
      length := length + |CRLF|;
      length := length + ol.1;
      length := length + |CRLF|;
      i := i + 1;
    }
    assert rs[..|rs|] == rs;
    length := length + |DASH|;
    length := length + |boundary|;
    length := length + |DASH|;
  }

  /** The length announced does not depend on the content, only on its size. */
  lemma {:induction false} SizeIgnoresContent(rs: seq<Range>, boundary: string, contentType: string, a: string,
                                              b: string)
    requires |a| == |b| && AllInBounds(rs, |a|)
    ensures |RangesData(rs, boundary, contentType, a)| == |RangesData(rs, boundary, contentType, b)|
  {
    PartsSize(rs, boundary, contentType, a, b);
  }

  lemma {:induction false} PartsSize(rs: seq<Range>, boundary: string, contentType: string, a: string, b: string)
    requires |a| == |b| && AllInBounds(rs, |a|)
    ensures |Parts(rs, boundary, contentType, a)| == |Parts(rs, boundary, contentType, b)|
  {
    hide PartHead;
    if rs == [] {
    } else {
      assert forall i :: 0 <= i < |rs| - 1 ==> Init(rs)[i] == rs[i];
      PartsSize(Init(rs), boundary, contentType, a, b);
    }
  }
}
