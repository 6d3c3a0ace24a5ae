/** What a client gets for the byte ranges it asks for: which bytes each request means, and the multipart answer read
    back by the positions and the content length that its parts announce. */
module RangeAnswers {
  import opened Lists
  import opened HttpText
  import opened Ranges

  // ----- Which bytes a request means -----

  /** The bytes that an accepted request stands for. */
  function Selected(r: Range, body: string): string
    requires InBounds(Normalised(r, |body|), |body|)
  {
    PartBytes(Normalised(r, |body|), body)
  }

  /** A count alone means the last bytes; no last position, or one beyond the content, means the rest; two missing
      positions mean everything. */
  lemma RequestMeans(r: Range, body: string)
    requires InBounds(Normalised(r, |body|), |body|)
    ensures r.0 == -1 && r.1 == -1 ==> Selected(r, body) == body
    ensures r.0 == -1 && r.1 != -1 ==> 0 < r.1 <= |body| && Selected(r, body) == body[|body| - r.1..]
    ensures r.0 != -1 && (r.1 == -1 || r.1 >= |body|) ==> 0 <= r.0 < |body| && Selected(r, body) == body[r.0..]
    ensures r.0 != -1 && r.1 != -1 && r.1 < |body| ==>
              0 <= r.0 <= r.1 < |body| && Selected(r, body) == body[r.0..r.1 + 1]
  {
  }

  /** The requests that mean some bytes of the content. */
  lemma RequestIsSatisfiableIff(r: Range, len: nat)
    ensures InBounds(Normalised(r, len), len) <==>
              if r.0 == -1 then (r.1 == -1 && len > 0) || 0 < r.1 <= len
              else 0 <= r.0 < len && (r.1 == -1 || r.0 <= r.1)
  {
  }

  // ----- Numbers -----

  function Number(s: string): Option<nat> {
    if s == "" then Some(0)
    else match Number(Init(s))
      case None => None
      case Some(n) => if IsDigit(Last(s)) then Some(10 * n + (Last(s) as int - '0' as int)) else None
  }

  lemma {:induction false} DecimalReadsBack(n: nat)
    ensures Number(Decimal(n)) == Some(n) && Decimal(n) != ""
    ensures forall i :: 0 <= i < |Decimal(n)| ==> IsDigit(Decimal(n)[i])
  {
    if n < 10 {
      assert Init(Decimal(n)) == "";
    } else {
      DecimalReadsBack(n / 10);
      assert Init(Decimal(n)) == Decimal(n / 10);
    }
  }

  /** First position, last position and content length of "bytes first-last/length". */
  function ReadContentRange(s: string): Option<(nat, nat, nat)> {
    if |s| < 6 || s[..6] != "bytes " then None
    else
      var t := s[6..];
      var i, j := IndexOf(t, '-'), IndexOf(t, '/');
      if !(i < j < |t|) then None
      else match (Number(t[..i]), Number(t[i + 1..j]), Number(t[j + 1..]))
        case (Some(first), Some(last), Some(len)) => Some((first, last, len))
        case _ => None
  }

  lemma ContentRangeReadsBack(r: Range, len: nat)
    requires InBounds(r, len)
    ensures ReadContentRange(ContentRange(OffsetAndLength(r, len), len)) == Some((r.0, r.1, len))
    ensures IsFieldContent(ContentRange(OffsetAndLength(r, len), len))
  {
    hide Decimal, Number, IndexOf, IsFieldContent, ReadContentRange;
    var a, b, c := Decimal(r.0), Decimal(r.1), Decimal(len);
    DecimalReadsBack(r.0);
    DecimalReadsBack(r.1);
    DecimalReadsBack(len);
    assert ContentRange(OffsetAndLength(r, len), len) == "bytes " + (a + "-" + b + "/" + c);
    ThreeNumbers(a, b, c);
    NumbersAreRead("bytes " + (a + "-" + b + "/" + c), |a|, |a| + 1 + |b|);
  }

  lemma NumbersAreRead(s: string, i: nat, j: nat)
    requires |s| >= 6 && s[..6] == "bytes "
    requires IndexOf(s[6..], '-') == i && IndexOf(s[6..], '/') == j && i < j < |s[6..]|
    requires var t := s[6..]; Number(t[..i]).Some? && Number(t[i + 1..j]).Some? && Number(t[j + 1..]).Some?
    ensures var t := s[6..];
            ReadContentRange(s) == Some((Number(t[..i]).value, Number(t[i + 1..j]).value, Number(t[j + 1..]).value))
  {
    hide Number, IndexOf;
  }

  lemma ThreeNumbers(a: string, b: string, c: string)
    requires forall i :: 0 <= i < |a| ==> IsDigit(a[i])
    requires forall i :: 0 <= i < |b| ==> IsDigit(b[i])
    requires forall i :: 0 <= i < |c| ==> IsDigit(c[i])
    requires c != ""
    ensures var s, t := "bytes " + (a + "-" + b + "/" + c), a + "-" + b + "/" + c;
            && |s| >= 6 && s[..6] == "bytes " && s[6..] == t && IsFieldContent(s)
            && IndexOf(t, '-') == |a| && IndexOf(t, '/') == |a| + 1 + |b| < |t|
            && t[..|a|] == a && t[|a| + 1..|a| + 1 + |b|] == b && t[|a| + 1 + |b| + 1..] == c
  {
    var s, t := "bytes " + (a + "-" + b + "/" + c), a + "-" + b + "/" + c;
    DigitsAround(a, b, c);
    IndexOfIs(t, '-', |a|);
    IndexOfIs(t, '/', |a| + 1 + |b|);
    assert s[6..] == t && s[..6] == "bytes ";
    assert t[..|a|] == a && t[|a| + 1..|a| + 1 + |b|] == b && t[|a| + 1 + |b| + 1..] == c;
    PlaceIsField(s, t, c);
  }

  lemma PlaceIsField(s: string, t: string, c: string)
    requires s == "bytes " + t && t != "" && c != "" && IsDigit(Last(c)) && Last(t) == Last(c)
    requires forall i :: 0 <= i < |t| ==> IsDigit(t[i]) || t[i] == '-' || t[i] == '/'
    ensures IsFieldContent(s)
  {
    forall i | 0 <= i < |s|
      ensures IsFieldVChar(s[i]) || IsBlank(s[i])
    {
      assert i >= 6 ==> s[i] == t[i - 6];
    }
    assert s[|s| - 1] == c[|c| - 1];
  }

  lemma DigitsAround(a: string, b: string, c: string)
    requires forall i :: 0 <= i < |a| ==> IsDigit(a[i])
    requires forall i :: 0 <= i < |b| ==> IsDigit(b[i])
    requires forall i :: 0 <= i < |c| ==> IsDigit(c[i])
    ensures var t := a + "-" + b + "/" + c;
            && t[|a|] == '-' && t[|a| + 1 + |b|] == '/'
            && forall i :: 0 <= i < |t| && i != |a| && i != |a| + 1 + |b| ==> IsDigit(t[i])
  {
  }

  // ----- Reading the answer -----

  /** A part as a client sees it. */
  datatype Received = Received(contentType: string, first: nat, last: nat, len: nat, bytes: string)

  datatype Head = Head(fields: seq<(string, string)>, rest: string)

  /** The lines up to an empty one, as names and values. */
  function ReadHead(t: string): Option<Head>
    decreases |t|
  {
    FindFirst(t, CRLF);
    var i := Find(t, CRLF);
    if i == |t| then None
    else if i == 0 then Some(Head([], t[2..]))
    else
      var line := t[..i];
      var p := IndexOf(line, ':');
      if p == |line| then None
      else match ReadHead(t[i + 2..])
        case None => None
        case Some(h) => Some(Head([(line[..p], Trim(line[p + 1..]))] + h.fields, h.rest))
  }

  function ValueOf(fields: seq<(string, string)>, name: string): Option<string> {
    if fields == [] then None else if fields[0].0 == name then Some(fields[0].1) else ValueOf(fields[1..], name)
  }

  /** The part behind a boundary line, and what follows it. */
  function ReadPart(t: string): Option<(Received, string)> {
    match ReadHead(t)
    case None => None
    case Some(h) =>
      var kind := match ValueOf(h.fields, "Content-Type") case Some(v) => v case None => "";
      match ValueOf(h.fields, "Content-Range")
      case None => None
      case Some(v) => match ReadContentRange(v)
        case None => None
        case Some((first, last, len)) =>
          if first <= last && last + 1 - first <= |h.rest| && At(h.rest, last + 1 - first, CRLF) then
            Some((Received(kind, first, last, len, h.rest[..last + 1 - first]), h.rest[last + 1 - first + 2..]))
          else None
  }

  lemma {:induction false} ReadHeadShrinks(t: string)
    ensures ReadHead(t).Some? ==> |ReadHead(t).value.rest| < |t|
    decreases |t|
  {
    FindFirst(t, CRLF);
    var i := Find(t, CRLF);
    if i == |t| || i == 0 {
    } else {
      ReadHeadShrinks(t[i + 2..]);
    }
  }

  lemma ReadPartShrinks(t: string)
    ensures ReadPart(t).Some? ==> |ReadPart(t).value.1| < |t|
  {
    hide ReadHead, ReadContentRange, ValueOf;
    ReadHeadShrinks(t);
  }

  /** The parts of an answer, up to the end boundary. */
  function ReadAnswer(t: string, boundary: string): Option<seq<Received>>
    decreases |t|
  {
    var d := DASH + boundary;
    if !At(t, 0, d) then None
    else if At(t, |d|, DASH) then if |t| == |d| + 2 then Some([]) else None
    else if !At(t, |d|, CRLF) then None
    else
      ReadPartShrinks(t[|d| + 2..]);
      match ReadPart(t[|d| + 2..])
      case None => None
      case Some((part, rest)) =>
        match ReadAnswer(rest, boundary) case None => None case Some(parts) => Some([part] + parts)
  }

  // ----- The answer, seen from the front -----

  function HeadLines(r: Range, contentType: string, len: nat): string
    requires InBounds(r, len)
  {
    (if contentType != "" then "Content-Type: " + contentType + CRLF else "")
    + ("Content-Range: " + ContentRange(OffsetAndLength(r, len), len) + CRLF)
  }

  function AnswerText(rs: seq<Range>, boundary: string, contentType: string, body: string): string
    requires AllInBounds(rs, |body|)
  {
    if rs == [] then DASH + boundary + DASH
    else
      DASH + boundary + CRLF + (HeadLines(rs[0], contentType, |body|) + (CRLF + (PartBytes(rs[0], body) + (CRLF +
      AnswerText(rs[1..], boundary, contentType, body)))))
  }

  lemma PartForm(r: Range, boundary: string, contentType: string, body: string, rest: string)
    requires InBounds(r, |body|)
    ensures PartHead(r, boundary, contentType, |body|) + PartBytes(r, body) + CRLF + rest ==
            DASH + boundary + CRLF + (HeadLines(r, contentType, |body|) + (CRLF + (PartBytes(r, body) + (CRLF + rest))))
  {
    hide ContentRange;
    var kind := if contentType != "" then "Content-Type: " + contentType + CRLF else "";
    var place := ContentRange(OffsetAndLength(r, |body|), |body|);
    assert PartHead(r, boundary, contentType, |body|) ==
           DASH + boundary + CRLF + kind + "Content-Range: " + place + CRLF + CRLF;
    Regrouped(DASH + boundary + CRLF, kind, place, PartBytes(r, body), rest);
  }

  lemma Regrouped(open: string, kind: string, place: string, bytes: string, rest: string)
    ensures open + kind + "Content-Range: " + place + CRLF + CRLF + bytes + CRLF + rest ==
            open + (kind + ("Content-Range: " + place + CRLF) + (CRLF + (bytes + (CRLF + rest))))
  {
  }

  lemma {:induction false} PartsThen(rs: seq<Range>, more: seq<Range>, boundary: string, contentType: string,
                                     body: string)
    requires AllInBounds(rs, |body|) && AllInBounds(more, |body|)
    ensures AllInBounds(rs + more, |body|)
    ensures Parts(rs, boundary, contentType, body) + AnswerText(more, boundary, contentType, body) ==
            AnswerText(rs + more, boundary, contentType, body)
  {
    hide PartHead, PartBytes, HeadLines;
    if rs == [] {
      assert rs + more == more;
    } else {
      assert forall i :: 0 <= i < |rs| - 1 ==> Init(rs)[i] == rs[i];
      var r, tail := Last(rs), AnswerText(more, boundary, contentType, body);
      assert InBounds(rs[|rs| - 1], |body|);
      assert ([r] + more)[1..] == more && Init(rs) + ([r] + more) == rs + more;
      PartForm(r, boundary, contentType, body, tail);
      PartsThen(Init(rs), [r] + more, boundary, contentType, body);
      var p, h, b := Parts(Init(rs), boundary, contentType, body), PartHead(r, boundary, contentType, |body|),
        PartBytes(r, body);
      assert p + h + b + CRLF + tail == p + (h + b + CRLF + tail);
    }
  }

  lemma AnswerForm(rs: seq<Range>, boundary: string, contentType: string, body: string)
    requires AllInBounds(rs, |body|)
    ensures RangesData(rs, boundary, contentType, body) == AnswerText(rs, boundary, contentType, body)
  {
    assert rs + [] == rs;
    PartsThen(rs, [], boundary, contentType, body);
  }

  // ----- Reading it back -----

  /** One line of a head, in front of what follows it. */
  lemma HeadLine(name: string, value: string, rest: string)
    requires name != "" && IsToken(name) && value != "" && IsFieldContent(value)
    ensures var t := name + ": " + value + CRLF + rest;
            ReadHead(t) ==
            match ReadHead(rest) case None => None case Some(h) => Some(Head([(name, value)] + h.fields, h.rest))
  {
    hide ReadHead, IsToken, IsFieldContent, Trim;
    var line, t := name + ": " + value, name + ": " + value + CRLF + rest;
    LineIsPlain(name, value);
    FreeWithoutFirst(line, CRLF);
    DelimiterIsFirst(line, CRLF, rest);
    FindIs(t, CRLF, |line|);
    IndexOfIs(line, ':', |name|);
    BlankTrimmed(value);
    assert line[..|name|] == name && line[|name| + 1..] == " " + value;
    assert t[..|line|] == line && t[|line| + 2..] == rest;
    ReadHeadStep(t, |line|);
  }

  lemma LineIsPlain(name: string, value: string)
    requires name != "" && IsToken(name) && IsFieldContent(value)
    ensures var line := name + ": " + value;
            && (forall i :: 0 <= i < |line| ==> line[i] != '\r')
            && (forall i :: 0 <= i < |name| ==> line[i] != ':') && line[|name|] == ':'
  {
    var line := name + ": " + value;
    forall i | 0 <= i < |line|
      ensures line[i] != '\r' && (i < |name| ==> line[i] != ':')
    {
      if i < |name| {
        assert IsTokenChar(name[i]) && line[i] == name[i];
      } else if i >= |name| + 2 {
        assert line[i] == value[i - |name| - 2];
      }
    }
  }

  lemma ReadHeadStep(t: string, i: nat)
    requires Find(t, CRLF) == i && 0 < i && i + 2 <= |t|
    ensures var line := t[..i];
            var p := IndexOf(line, ':');
            ReadHead(t) ==
            if p == |line| then None
            else match ReadHead(t[i + 2..])
              case None => None
              case Some(h) => Some(Head([(line[..p], Trim(line[p + 1..]))] + h.fields, h.rest))
  {
  }

  lemma BlankTrimmed(s: string)
    requires s != "" && IsFieldContent(s)
    ensures Trim(" " + s) == s
  {
    assert (" " + s)[1..] == s;
    TrimVisible(s);
  }

  lemma HeadEnds(rest: string)
    ensures ReadHead(CRLF + rest) == Some(Head([], rest))
  {
    var t := CRLF + rest;
    assert t[0..2] == CRLF;
    FindIs(t, CRLF, 0);
    assert t[2..] == rest;
  }

  lemma TokenNames()
    ensures IsToken("Content-Type") && IsToken("Content-Range")
  {
    assert "!#$%&'*+-.^_`|~"[8] == '-';
  }

  /** What the head of a part says. */
  function HeadFields(r: Range, contentType: string, len: nat): seq<(string, string)>
    requires InBounds(r, len)
  {
    (if contentType != "" then [("Content-Type", contentType)] else [])
    + [("Content-Range", ContentRange(OffsetAndLength(r, len), len))]
  }

  lemma HeadReadsBack(r: Range, contentType: string, len: nat, rest: string)
    requires InBounds(r, len) && IsFieldContent(contentType)
    ensures ReadHead(HeadLines(r, contentType, len) + (CRLF + rest)) ==
            Some(Head(HeadFields(r, contentType, len), rest))
  {
    hide ReadHead, ContentRange, IsFieldContent, IsToken, OffsetAndLength;
    var place := ContentRange(OffsetAndLength(r, len), len);
    var second := "Content-Range: " + place + CRLF;
    TokenNames();
    ContentRangeReadsBack(r, len);
    SomePlace(r, len);
    HeadEnds(rest);
    HeadLine("Content-Range", place, CRLF + rest);
    assert "Content-Range" + ": " + place + CRLF + (CRLF + rest) == second + (CRLF + rest);
    if contentType != "" {
      var first := "Content-Type: " + contentType + CRLF;
      HeadLine("Content-Type", contentType, second + (CRLF + rest));
      assert "Content-Type" + ": " + contentType + CRLF + (second + (CRLF + rest)) == first + second + (CRLF + rest);
      assert HeadLines(r, contentType, len) == first + second;
      assert [("Content-Type", contentType)] + ([("Content-Range", place)] + []) == HeadFields(r, contentType, len);
    } else {
      assert HeadLines(r, contentType, len) == "" + second == second;
      assert HeadFields(r, contentType, len) == [("Content-Range", place)] == [("Content-Range", place)] + [];
    }
  }

  lemma SomePlace(r: Range, len: nat)
    requires InBounds(r, len)
    ensures ContentRange(OffsetAndLength(r, len), len) != ""
  {
  }

  lemma FieldsLookUp(r: Range, contentType: string, len: nat)
    requires InBounds(r, len)
    ensures var fields := HeadFields(r, contentType, len);
            && ValueOf(fields, "Content-Range") == Some(ContentRange(OffsetAndLength(r, len), len))
            && ValueOf(fields, "Content-Type") == if contentType != "" then Some(contentType) else None
  {
    hide ContentRange;
    var fields := HeadFields(r, contentType, len);
    assert "Content-Type"[8] != "Content-Range"[8];
    if contentType != "" {
      assert fields[1..] == [("Content-Range", ContentRange(OffsetAndLength(r, len), len))];
      assert fields[1..][1..] == [];
    } else {
      assert fields[1..] == [];
    }
  }

  /** A part as it should be received. */
  function PartOf(r: Range, contentType: string, body: string): Received
    requires InBounds(r, |body|)
  {
    Received(contentType, r.0, r.1, |body|, body[r.0..r.1 + 1])
  }

  function PartsOf(rs: seq<Range>, contentType: string, body: string): seq<Received>
    requires AllInBounds(rs, |body|)
  {
    seq(|rs|, i requires 0 <= i < |rs| => PartOf(rs[i], contentType, body))
  }

  lemma PartReadsBack(r: Range, contentType: string, body: string, rest: string)
    requires InBounds(r, |body|) && IsFieldContent(contentType)
    ensures ReadPart(HeadLines(r, contentType, |body|) + (CRLF + (PartBytes(r, body) + (CRLF + rest)))) ==
            Some((PartOf(r, contentType, body), rest))
  {
    hide ReadHead, ContentRange, ReadContentRange, HeadLines, HeadFields, ValueOf, IsFieldContent;
    var bytes := PartBytes(r, body);
    HeadReadsBack(r, contentType, |body|, bytes + (CRLF + rest));
    FieldsLookUp(r, contentType, |body|);
    ContentRangeReadsBack(r, |body|);
    var t := bytes + (CRLF + rest);
    assert t[..|bytes|] == bytes && t[|bytes|..|bytes| + 2] == CRLF && t[|bytes| + 2..] == rest;
  }

  /** The answer to accepted ranges is read back as one part for each: its content type, its positions, the length
      of the content, and the very bytes of the content at those positions. */
  lemma {:induction false} AnswerTextReadsBack(rs: seq<Range>, boundary: string, contentType: string, body: string)
    requires AllInBounds(rs, |body|) && IsFieldContent(contentType)
    ensures ReadAnswer(AnswerText(rs, boundary, contentType, body), boundary) == Some(PartsOf(rs, contentType, body))
  {
    hide ReadPart, HeadLines, PartBytes, IsFieldContent;
    var d, t := DASH + boundary, AnswerText(rs, boundary, contentType, body);
    if rs == [] {
      assert t[0..|d|] == d && t[|d|..|d| + 2] == DASH && |t| == |d| + 2;
      assert PartsOf(rs, contentType, body) == [];
    } else {
      var r, more := rs[0], AnswerText(rs[1..], boundary, contentType, body);
      assert forall i :: 0 <= i < |rs| - 1 ==> rs[1..][i] == rs[i + 1];
      var part := HeadLines(r, contentType, |body|) + (CRLF + (PartBytes(r, body) + (CRLF + more)));
      assert t == d + CRLF + part;
      assert t[0..|d|] == d && t[|d|..|d| + 2] == CRLF && t[|d| + 2..] == part;
      assert CRLF != DASH;
      PartReadsBack(r, contentType, body, more);
      AnswerTextReadsBack(rs[1..], boundary, contentType, body);
      assert PartsOf(rs, contentType, body) == [PartOf(r, contentType, body)] + PartsOf(rs[1..], contentType, body);
    }
  }

  lemma AnswerReadsBack(rs: seq<Range>, boundary: string, contentType: string, body: string)
    requires AllInBounds(rs, |body|) && IsFieldContent(contentType)
    ensures ReadAnswer(RangesData(rs, boundary, contentType, body), boundary) == Some(PartsOf(rs, contentType, body))
  {
    AnswerForm(rs, boundary, contentType, body);
    AnswerTextReadsBack(rs, boundary, contentType, body);
  }
}
