/** What becomes of a text whose opening boundary line arrives in two pieces: whatever the entries hold, they
    are never read back, because everything the parser still finds lies behind where it belongs. */
module MultipartOpening {
  import opened Lists
  import opened HttpText
  import opened Multipart
  import opened MultipartHeaders
  import opened MultipartRoundTrip

  // ----- Positions in the text -----

  /** The text of entry k from the empty line in front of its content on. */
  function FromEmptyLine(items: seq<Item>, k: nat, boundary: string): string
    requires k < |items|
  {
    CRLF + ContentText(items[k].content, boundary, Tail(items[k + 1..], boundary))
  }

  /** t begins at least three bytes into u. */
  ghost predicate Behind(u: string, t: string) {
    exists o :: BehindBy(u, t, o)
  }

  ghost predicate BehindBy(u: string, t: string, o: nat) {
    3 <= o <= |u| && t == u[o..]
  }

  /** And a line begins there. */
  ghost predicate LineBehind(u: string, t: string) {
    exists o :: LineBehindBy(u, t, o)
  }

  ghost predicate LineBehindBy(u: string, t: string, o: nat) {
    BehindBy(u, t, o) && u[o - 2..o] == CRLF
  }

  /** The text of a content, of which `done` has been handed on, starts behind an empty line in u, and no
      delimiter has been passed over. */
  ghost predicate ContentBehind(u: string, done: string, t: string, d: string) {
    exists o :: ContentBehindBy(u, done, t, d, o)
  }

  ghost predicate ContentBehindBy(u: string, done: string, t: string, d: string, o: nat) {
    && 3 <= o && o + 2 <= |u| && u[o - 2..o] == CRLF && u[o..o + 2] == CRLF
    && done + t == u[o + 2..]
    && NoneBefore(done + t, d, |done|)
  }

  // ----- Where a parser that missed the opening can be -----

  /** Between entries: what has been collected is wrong, or what comes next starts too late. */
  ghost predicate LateLine(boundary: string, items: seq<Item>, p: Parser, rest: string, acc: seq<Item>) {
    acc != items && (acc < items ==> LineBehind(FromEmptyLine(items, |acc|, boundary), p.buf + rest))
  }

  /** Just behind the last header line of the first entry, with none of its headers read. */
  ghost predicate HeadersMissed(boundary: string, items: seq<Item>, p: Parser, rest: string, acc: seq<Item>) {
    && acc == [] && items != [] && items[0].contentType != ""
    && p.buf + rest == FromEmptyLine(items, 0, boundary)
    && (p.phase == Headers ==> p.part == NO_PART)
  }

  ghost predicate LateContent(boundary: string, items: seq<Item>, p: Parser, rest: string, acc: seq<Item>) {
    && acc != []
    && (Init(acc) < items && Empty(Last(acc)) == Empty(items[|acc| - 1]) ==>
          && ContentBehind(FromEmptyLine(items, |acc| - 1, boundary), Last(acc).content, p.buf + rest,
             Delimiter(boundary))
          && (Last(acc).content != "" ==> |p.buf| >= |Delimiter(boundary)|))
  }

  ghost predicate LateBoundary(boundary: string, items: seq<Item>, p: Parser, rest: string, acc: seq<Item>) {
    acc != items && (acc < items ==> Behind(FromEmptyLine(items, |acc|, boundary), p.buf + rest))
  }

  ghost predicate Misled(boundary: string, items: seq<Item>, p: Parser, rest: string, acc: seq<Item>) {
    match p.phase
    case Opening => false
    case NewEntry => LateLine(boundary, items, p, rest, acc) || HeadersMissed(boundary, items, p, rest, acc)
    case Headers => LateLine(boundary, items, p, rest, acc) || HeadersMissed(boundary, items, p, rest, acc)
    case Body => LateContent(boundary, items, p, rest, acc)
    case Boundary => LateBoundary(boundary, items, p, rest, acc)
  }

  /** A step leads to where the parser is still misled, or fails. */
  ghost predicate MisledStep(boundary: string, items: seq<Item>, s: Step, rest: string, acc: seq<Item>) {
    (s.Stop? && !s.ok) || Misled(boundary, items, s.parser, rest, Collect(acc, s.events))
  }

  // ----- Header lines -----

  lemma LineBehindLater(u: string, t: string, n: nat)
    requires LineBehind(u, t) && n + 2 <= |t| && t[n..n + 2] == CRLF
    ensures LineBehind(u, t[n + 2..])
  {
    var o: nat :| LineBehindBy(u, t, o);
    assert u[o + n..o + n + 2] == t[n..n + 2];
    assert LineBehindBy(u, t[n + 2..], o + n + 2);
  }

  lemma ContentStartsBehind(u: string, t: string, d: string)
    requires LineBehind(u, t) && 2 <= |t| && t[0..2] == CRLF
    ensures ContentBehind(u, "", t[2..], d)
  {
    var o: nat :| LineBehindBy(u, t, o);
    assert u[o..o + 2] == t[0..2];
    assert "" + t[2..] == u[o + 2..];
    assert ContentBehindBy(u, "", t[2..], d, o);
  }

  lemma {:induction false} LateHeaderLines(boundary: string, items: seq<Item>, p: Parser, rest: string, acc: seq<Item>)
    requires p.phase == Headers && LateLine(boundary, items, p, rest, acc)
    ensures MisledStep(boundary, items, HeaderLines(p), rest, acc)
    decreases |p.buf|
  {
    hide ReadLine, Find, FromEmptyLine, LineBehind, ContentBehind;
    var pos, t := Find(p.buf, CRLF), p.buf + rest;
    FindFirst(p.buf, CRLF);
    CollectNone(acc);
    if pos >= |p.buf| {
    } else {
      assert t[pos..pos + 2] == p.buf[pos..pos + 2] == CRLF;
      assert p.buf[pos + 2..] + rest == t[pos + 2..];
      if pos == 0 {
        LateEntry(boundary, items, p, rest, acc);
      } else {
        var r := ReadLine(p.part, p.buf[..pos]);
        if r.ok {
          if acc < items {
            LineBehindLater(FromEmptyLine(items, |acc|, boundary), t, pos);
          }
          LateHeaderLines(boundary, items, p.(buf := p.buf[pos + 2..], part := r.part), rest, acc);
        }
      }
    }
  }

  lemma LateEntry(boundary: string, items: seq<Item>, p: Parser, rest: string, acc: seq<Item>)
    requires LateLine(boundary, items, p, rest, acc) && |p.buf| >= 2 && (p.buf + rest)[0..2] == CRLF
    requires p.buf[2..] + rest == (p.buf + rest)[2..]
    ensures LateContent(boundary, items, p.(buf := p.buf[2..], phase := Body), rest, Collect(acc, [Header(p.part)]))
  {
    hide FromEmptyLine, LineBehind, ContentBehind;
    CollectSingle(acc, Header(p.part));
    var acc' := acc + [Item(p.part.name, "", p.part.filename, p.part.contentType)];
    assert Init(acc') == acc;
    if acc < items {
      ContentStartsBehind(FromEmptyLine(items, |acc|, boundary), p.buf + rest, Delimiter(boundary));
    }
  }

  /** An entry whose headers were missed has no content type. */
  lemma MissedHeaderLines(boundary: string, items: seq<Item>, p: Parser, rest: string, acc: seq<Item>)
    requires p.phase == Headers && HeadersMissed(boundary, items, p, rest, acc)
    ensures MisledStep(boundary, items, HeaderLines(p), rest, acc)
  {
    hide ContentText, ReadLine, Find, Tail, MisledStep;
    var content := ContentText(items[0].content, boundary, Tail(items[1..], boundary));
    EmptyLineFirst(content);
    SeenInBuffer(p.buf + rest, p.buf, rest, CRLF, 0);
    if 2 <= |p.buf| {
      MissedEntry(boundary, items, p, rest, acc);
    } else {
      HeadersStillMissed(boundary, items, p, rest, acc);
    }
  }

  lemma HeadersStillMissed(boundary: string, items: seq<Item>, p: Parser, rest: string, acc: seq<Item>)
    requires p.phase == Headers && HeadersMissed(boundary, items, p, rest, acc) && Find(p.buf, CRLF) == |p.buf|
    ensures MisledStep(boundary, items, HeaderLines(p), rest, acc)
  {
    hide ContentText, ReadLine, Find, Tail;
    CollectNone(acc);
  }

  lemma MissedEntry(boundary: string, items: seq<Item>, p: Parser, rest: string, acc: seq<Item>)
    requires p.phase == Headers && HeadersMissed(boundary, items, p, rest, acc) && Find(p.buf, CRLF) == 0
    requires 2 <= |p.buf| && p.buf[2..] + rest == (p.buf + rest)[2..]
    ensures MisledStep(boundary, items, HeaderLines(p), rest, acc)
  {
    hide ContentText, ReadLine, Find, Tail;
    CollectSingle(acc, Header(NO_PART));
    var acc' := acc + [Item("", "", "", "")];
    assert Last(acc') == Item("", "", "", "");
    assert LateContent(boundary, items, p.(buf := p.buf[2..], phase := Body), rest, acc');
  }

  // ----- Content -----

  lemma ContentGrows(u: string, done: string, t: string, d: string, n: nat)
    requires ContentBehind(u, done, t, d) && n <= |t| && NoneBefore(t, d, n)
    ensures ContentBehind(u, done + t[..n], t[n..], d)
  {
    var o: nat :| ContentBehindBy(u, done, t, d, o);
    var all := done + t;
    assert done + t[..n] + t[n..] == all;
    forall i | 0 <= i < |done| + n
      ensures !At(all, i, d)
    {
      if i >= |done| {
        assert !At(t, i - |done|, d);
        if i + |d| <= |all| {
          assert all[i..i + |d|] == t[i - |done|..i - |done| + |d|];
        }
      }
    }
    assert ContentBehindBy(u, done + t[..n], t[n..], d, o);
  }

  /** No delimiter starts within what is handed on: what is kept back is as long as one. */
  lemma NoDelimiterPassed(buf: string, rest: string, d: string, n: nat)
    requires NoneBefore(buf, d, |buf|) && n + |d| <= |buf|
    ensures NoneBefore(buf + rest, d, n)
  {
    forall i | 0 <= i < n
      ensures !At(buf + rest, i, d)
    {
      assert !At(buf, i, d);
      assert (buf + rest)[i..i + |d|] == buf[i..i + |d|];
    }
  }

  lemma LateContentGoesOn(boundary: string, items: seq<Item>, p: Parser, rest: string, acc: seq<Item>, n: nat)
    requires LateContent(boundary, items, p, rest, acc) && n + |Delimiter(boundary)| == |p.buf|
    requires NoneBefore(p.buf, Delimiter(boundary), |p.buf|)
    ensures LateContent(boundary, items, p.(buf := p.buf[n..]), rest, Collect(acc, [Content(p.buf[..n])]))
  {
    hide FromEmptyLine, ContentBehind, NoneBefore, Delimiter;
    var d, t := Delimiter(boundary), p.buf + rest;
    CollectSingle(acc, Content(p.buf[..n]));
    var last := Last(acc).(content := Last(acc).content + p.buf[..n]);
    var acc' := Init(acc) + [last];
    assert Init(acc') == Init(acc) && Last(acc') == last;
    assert t[..n] == p.buf[..n] && t[n..] == p.buf[n..] + rest;
    NoDelimiterPassed(p.buf, rest, d, n);
    if Init(acc) < items && Empty(Last(acc)) == Empty(items[|acc| - 1]) {
      ContentGrows(FromEmptyLine(items, |acc| - 1, boundary), Last(acc).content, t, d, n);
    }
  }

  // ----- The next delimiter -----

  /** Header lines hold no delimiter, nor does the line end of one start it. */
  lemma {:induction false} NoDelimiterInLines(lines: seq<string>, d: string, u: string)
    requires |d| > 2 && d[0] == '\r' && d[2] == '-' && u != "" && u[0] != '-'
    requires forall i :: 0 <= i < |lines| ==> lines[i] != "" && lines[i][0] != '-' && NoReturn(lines[i])
    ensures NoneBefore(LinesText(lines) + u, d, |LinesText(lines)|)
  {
    if lines == [] {
    } else {
      var line, more := lines[0], LinesText(lines[1..]);
      NoDelimiterInLines(lines[1..], d, u);
      var t := LinesText(lines) + u;
      assert t == line + CRLF + (more + u);
      assert more != "" ==> more[0] == lines[1][0];
      OneLineHasNone(line, more + u, d);
      forall i | 0 <= i < |LinesText(lines)|
        ensures !At(t, i, d)
      {
        var j := i - |line| - 2;
        if j >= 0 {
          assert !At(more + u, j, d);
          if i + |d| <= |t| {
            assert t[i..i + |d|] == (more + u)[j..j + |d|];
          }
        }
      }
    }
  }

  predicate NoReturn(s: string) {
    forall i :: 0 <= i < |s| ==> s[i] != '\r'
  }

  lemma OneLineHasNone(line: string, z: string, d: string)
    requires |d| > 2 && d[0] == '\r' && d[2] == '-' && NoReturn(line) && z != "" && z[0] != '-'
    ensures NoneBefore(line + CRLF + z, d, |line| + 2)
  {
    var t := line + CRLF + z;
    forall i | 0 <= i < |line| + 2
      ensures !At(t, i, d)
    {
      if i + |d| <= |t| {
        assert t[i..i + |d|][0] == t[i] && t[i..i + |d|][2] == t[i + 2];
        assert i == |line| ==> t[i + 2] == z[0];
      }
    }
  }

  lemma ItemLines(item: Item)
    requires PlainItem(item)
    ensures forall i :: 0 <= i < |Lines(item)| ==>
              Lines(item)[i] != "" && Lines(item)[i][0] == 'C' && NoReturn(Lines(item)[i])
  {
    forall i | 0 <= i < |Lines(item)|
      ensures Lines(item)[i] != "" && Lines(item)[i][0] == 'C' && NoReturn(Lines(item)[i])
    {
      LineIsPlain(item, i);
    }
  }

  lemma TailForm(items: seq<Item>, k: nat, boundary: string)
    requires k < |items|
    ensures Tail(items[k..], boundary) == CRLF + (LinesText(Lines(items[k])) + FromEmptyLine(items, k, boundary))
  {
    hide ContentText, DispositionLine, TypeLine, LinesText;
    assert items[k..][0] == items[k] && items[k..][1..] == items[k + 1..];
    assert Lines(items[k])[0..] == Lines(items[k]);
  }

  /** Behind a delimiter, the next one lies behind the header lines, if there is one. */
  lemma NextDelimiter(items: seq<Item>, k: nat, boundary: string, o: nat)
    requires PlainItems(items, boundary) && k <= |items| && o >= 1
    requires At(Delimiter(boundary) + Tail(items[k..], boundary), o, Delimiter(boundary))
    ensures k < |items| && o >= |Delimiter(boundary)| + 2 + |LinesText(Lines(items[k]))|
  {
    hide PlainItem, FreeOf, Lines, LinesText, FromEmptyLine;
    var d := Delimiter(boundary);
    DelimiterForm(boundary);
    if k == |items| {
      assert items[k..] == [];
      LastDelimiter(boundary, o);
    } else {
      var lines, u := LinesText(Lines(items[k])), FromEmptyLine(items, k, boundary);
      TailForm(items, k, boundary);
      ItemLines(items[k]);
      StartsWithReturn(items, k, boundary);
      NoDelimiterInLines(Lines(items[k]), d, u);
      LinesNotEmpty(items[k]);
      OneLineHasNone(d[1..], lines + u, d);
      DelimiterAfter(d, lines, u, o);
    }
  }

  lemma StartsWithReturn(items: seq<Item>, k: nat, boundary: string)
    requires k < |items|
    ensures FromEmptyLine(items, k, boundary) != "" && FromEmptyLine(items, k, boundary)[0] == '\r'
  {
  }

  lemma LinesNotEmpty(item: Item)
    ensures LinesText(Lines(item)) != "" && LinesText(Lines(item))[0] == 'C'
  {
  }

  lemma DelimiterAfter(d: string, lines: string, u: string, o: nat)
    requires |d| > 0 && o >= 1 && At(d + (CRLF + (lines + u)), o, d)
    requires NoneBefore(d[1..] + CRLF + (lines + u), d, |d| + 1) && NoneBefore(lines + u, d, |lines|)
    ensures o >= |d| + 2 + |lines|
  {
    var t := d + (CRLF + (lines + u));
    if o < |d| + 2 {
      assert t[1..] == d[1..] + CRLF + (lines + u);
      assert t[1..][o - 1..o - 1 + |d|] == t[o..o + |d|];
      assert At(t[1..], o - 1, d);
      assert false;
    } else if o < |d| + 2 + |lines| {
      var j := o - |d| - 2;
      assert t[|d| + 2..] == lines + u;
      assert (lines + u)[j..j + |d|] == t[o..o + |d|];
      assert At(lines + u, j, d);
      assert false;
    }
  }

  lemma LastDelimiter(boundary: string, o: nat)
    requires IsBoundary(boundary) && o >= 1
    ensures !At(Delimiter(boundary) + Tail([], boundary), o, Delimiter(boundary))
  {
    var d := Delimiter(boundary);
    var t := d + Tail([], boundary);
    DelimiterForm(boundary);
    if o + |d| <= |t| {
      assert o <= 4;
      assert t[o..o + |d|][0] == t[o];
    }
  }

  /** Where a late content ends as it should, the text behind it is late as well. */
  lemma NextIsBehind(items: seq<Item>, k: nat, boundary: string, t': string, o: nat)
    requires PlainItems(items, boundary) && k < |items| && 3 <= o && o + 2 <= |FromEmptyLine(items, k, boundary)|
    requires items[k].content + Delimiter(boundary) + t' == FromEmptyLine(items, k, boundary)[o + 2..]
    ensures k + 1 < |items| && Behind(FromEmptyLine(items, k + 1, boundary), t')
  {
    hide PlainItem, FreeOf, Lines, LinesText, Tail, Delimiter;
    var content, d, tail := items[k].content, Delimiter(boundary), Tail(items[k + 1..], boundary);
    var u := FromEmptyLine(items, k, boundary);
    DelimiterForm(boundary);
    Shifted(content, d, tail, t', u, o);
    NextDelimiter(items, k + 1, boundary, o);
    var lines, u' := LinesText(Lines(items[k + 1])), FromEmptyLine(items, k + 1, boundary);
    TailForm(items, k + 1, boundary);
    var o' := o - 2 - |lines|;
    assert (CRLF + (lines + u'))[o..] == u'[o'..];
    assert BehindBy(u', t', o');
  }

  lemma Shifted(content: string, d: string, tail: string, t': string, u: string, o: nat)
    requires u == CRLF + (content + d + tail) && o + 2 <= |u| && content + d + t' == u[o + 2..]
    ensures o <= |tail| && t' == tail[o..] && At(d + tail, o, d)
  {
    assert |content + d + t'| == |u| - o - 2;
    var all := content + d + tail;
    assert u[o + 2..] == all[o..];
    assert d + t' == all[o..][|content|..] == all[o + |content|..] == (d + tail)[o..];
    assert t' == (d + t')[|d|..] == (d + tail)[o..][|d|..] == tail[o..];
    assert (d + tail)[o..o + |d|] == (d + t')[..|d|] == d;
  }

  lemma DelimiterTaken(done: string, buf: string, rest: string, d: string, n: nat)
    requires At(buf, n, d)
    ensures done + (buf + rest) == done + buf[..n] + d + (buf[n + |d|..] + rest)
  {
    assert buf == buf[..n] + d + buf[n + |d|..];
  }

  lemma LateContentEnds(boundary: string, items: seq<Item>, p: Parser, rest: string, acc: seq<Item>, n: nat)
    requires PlainItems(items, boundary) && LateContent(boundary, items, p, rest, acc)
    requires n + |Delimiter(boundary)| <= |p.buf| && At(p.buf, n, Delimiter(boundary))
    ensures LateBoundary(boundary, items, p.(buf := p.buf[n + |Delimiter(boundary)|..], phase := Boundary), rest,
                         Collect(acc, [Content(p.buf[..n])]))
  {
    hide PlainItems, FromEmptyLine, NoneBefore, Delimiter, Behind;
    var d, t := Delimiter(boundary), p.buf + rest;
    var c, t' := Last(acc).content + p.buf[..n], p.buf[n + |d|..] + rest;
    CollectSingle(acc, Content(p.buf[..n]));
    var last := Last(acc).(content := c);
    var acc' := Init(acc) + [last];
    assert Init(acc') == Init(acc) && Last(acc') == last;
    if acc' <= items {
      var k := |acc| - 1;
      assert acc'[k] == last == items[k];
      assert Init(acc) == items[..k];
      var u := FromEmptyLine(items, k, boundary);
      var o: nat :| ContentBehindBy(u, Last(acc).content, t, d, o);
      DelimiterTaken(Last(acc).content, p.buf, rest, d, n);
      NextIsBehind(items, k, boundary, t', o);
    }
  }

  lemma LateBody(boundary: string, items: seq<Item>, p: Parser, rest: string, acc: seq<Item>)
    requires PlainItems(items, boundary) && p.phase == Body && LateContent(boundary, items, p, rest, acc)
    ensures MisledStep(boundary, items, BodyStep(boundary, p), rest, acc)
  {
    hide PlainItems, LateContent, LateBoundary, Delimiter, NoneBefore;
    var d := Delimiter(boundary);
    DelimiterLength(boundary);
    FindFirst(p.buf, d);
    CollectNone(acc);
    var pos := Find(p.buf, d);
    if |p.buf| >= |d| {
      if pos < |p.buf| {
        LateContentEnds(boundary, items, p, rest, acc, pos);
      } else if |p.buf| > |d| {
        LateContentGoesOn(boundary, items, p, rest, acc, |p.buf| - |d|);
      } else {
        assert p.(buf := p.buf[0..]) == p;
      }
    }
  }

  lemma DelimiterLength(boundary: string)
    ensures |Delimiter(boundary)| >= 4
  {
  }

  // ----- Behind a boundary -----

  lemma BehindLater(u: string, t: string, n: nat)
    requires Behind(u, t) && n <= |t|
    ensures Behind(u, t[n..])
    ensures n == 2 && t[0..2] == CRLF ==> LineBehind(u, t[n..])
  {
    var o: nat :| BehindBy(u, t, o);
    assert BehindBy(u, t[n..], o + n);
    if n == 2 && t[0..2] == CRLF {
      assert u[o..o + 2] == t[0..2];
      assert LineBehindBy(u, t[n..], o + n);
    }
  }

  lemma LateAfterBoundary(boundary: string, items: seq<Item>, p: Parser, rest: string, acc: seq<Item>)
    requires p.phase == Boundary && LateBoundary(boundary, items, p, rest, acc)
    ensures MisledStep(boundary, items, BoundaryStep(p), rest, acc)
  {
    hide FromEmptyLine, Behind, LineBehind;
    var t := p.buf + rest;
    CollectNone(acc);
    if |p.buf| >= 2 && acc < items {
      var u := FromEmptyLine(items, |acc|, boundary);
      assert t[0..2] == p.buf[0..2] && t[2..] == p.buf[2..] + rest && t[|p.buf|..] == "" + rest;
      BehindLater(u, t, 2);
      BehindLater(u, t, |p.buf|);
    }
  }

  // ----- Whole calls -----

  lemma MisledRound(boundary: string, items: seq<Item>, p: Parser, rest: string, acc: seq<Item>)
    requires PlainItems(items, boundary) && Misled(boundary, items, p, rest, acc)
    ensures MisledStep(boundary, items, StepOf(boundary, p), rest, acc)
  {
    hide PlainItems, HeaderLines, BodyStep, BoundaryStep, LateContent, LateBoundary, LineBehind, FromEmptyLine;
    CollectNone(acc);
    match p.phase
    case NewEntry =>
    case Headers =>
      if LateLine(boundary, items, p, rest, acc) {
        LateHeaderLines(boundary, items, p, rest, acc);
      } else {
        MissedHeaderLines(boundary, items, p, rest, acc);
      }
    case Body => LateBody(boundary, items, p, rest, acc);
    case Boundary => LateAfterBoundary(boundary, items, p, rest, acc);
  }

  lemma {:induction false} MisledRun(boundary: string, items: seq<Item>, p: Parser, rest: string, acc: seq<Item>)
    requires PlainItems(items, boundary) && Misled(boundary, items, p, rest, acc)
    ensures var r := Run(boundary, p); r.ok ==> Misled(boundary, items, r.parser, rest, Collect(acc, r.events))
    decreases |p.buf|, Rank(p.phase)
  {
    hide PlainItems, Misled, StepOf;
    CollectNone(acc);
    if p.buf == "" {
    } else {
      MisledRound(boundary, items, p, rest, acc);
      match StepOf(boundary, p)
      case Stop(_, _, _) =>
      case More(q, events) =>
        StepShrinks(boundary, p);
        MisledRun(boundary, items, q, rest, Collect(acc, events));
        CollectConcat(acc, events, Run(boundary, q).events);
    }
  }

  lemma MisledArrival(boundary: string, items: seq<Item>, p: Parser, last: string, rest: string, acc: seq<Item>)
    requires Misled(boundary, items, p, last + rest, acc)
    ensures Misled(boundary, items, p.(buf := p.buf + last), rest, acc)
  {
    hide FromEmptyLine, LineBehind, ContentBehind, Behind, Delimiter;
    assert p.buf + last + rest == p.buf + (last + rest);
  }

  /** A misled parser has not delivered the entries, whatever it has marked as the end. */
  lemma MisledIsNotDone(boundary: string, items: seq<Item>, p: Parser, rest: string, acc: seq<Item>)
    requires PlainItems(items, boundary) && Misled(boundary, items, p, rest, acc)
    ensures acc != items
  {
    hide LineBehind, ContentBehind, Behind, Delimiter, PlainItem, FreeOf, ContentText, Tail;
    if p.phase == Body && acc == items {
      var k := |items| - 1;
      assert Init(items) == items[..k] && Last(items) == items[k] && items[k + 1..] == [];
      LateAtTheEnd(boundary, items[k].content, p, rest);
    }
  }

  /** The content of the last entry cannot be complete without its delimiter having been passed. */
  lemma LateAtTheEnd(boundary: string, content: string, p: Parser, rest: string)
    requires IsBoundary(boundary)
    requires content != "" ==> |p.buf| >= |Delimiter(boundary)|
    ensures !ContentBehind(CRLF + ContentText(content, boundary, Tail([], boundary)), content, p.buf + rest,
            Delimiter(boundary))
  {
    var d, t := Delimiter(boundary), p.buf + rest;
    var u := CRLF + ContentText(content, boundary, Tail([], boundary));
    DelimiterForm(boundary);
    if o: nat :| ContentBehindBy(u, content, t, d, o) {
      EndOffset(boundary, content, t, o);
      LateEndIsShort(boundary, content, t, |p.buf|, o);
      assert false;
    }
  }

  /** If a content that starts late is complete without a delimiter, it starts behind the last delimiter. */
  lemma EndOffset(boundary: string, content: string, t: string, o: nat)
    requires IsBoundary(boundary)
    requires ContentBehindBy(CRLF + ContentText(content, boundary, Tail([], boundary)), content, t,
             Delimiter(boundary), o)
    ensures o == |content| + 2
  {
    var d := Delimiter(boundary);
    var u := CRLF + ContentText(content, boundary, Tail([], boundary));
    DelimiterForm(boundary);
    assert u[|content| + 2..|content| + 2 + |d|] == d;
    assert u == CRLF + content + d + DASH + CRLF;
    assert u[o..o + 2][0] == u[o] && u[o..o + 2][1] == u[o + 1] && u[o - 2..o][0] == u[o - 2];
    if o <= |content| {
      var all := content + t;
      assert all[|content| - o..|content| - o + |d|] == u[|content| + 2..|content| + 2 + |d|];
      assert At(all, |content| - o, d);
      assert false;
    }
  }

  lemma LateEndIsShort(boundary: string, content: string, t: string, n: nat, o: nat)
    requires IsBoundary(boundary) && o == |content| + 2 && n <= |t| && (content != "" ==> n >= |Delimiter(boundary)|)
    ensures !ContentBehindBy(CRLF + ContentText(content, boundary, Tail([], boundary)), content, t,
            Delimiter(boundary), o)
  {
    var d := Delimiter(boundary);
    var u := CRLF + ContentText(content, boundary, Tail([], boundary));
    DelimiterForm(boundary);
    if |content| == 1 {
      assert u[o - 2..o][0] == u[1] == '\n';
    } else if |content| >= 2 {
      assert u[o + 2..] == d[2..] + DASH + CRLF;
      assert |u[o + 2..]| == |d| + 2;
      assert u[o - 2..o] == content[|content| - 2..];
      assert u[o + 2] == '-';
      assert |content + t| == |u[o + 2..]| ==> |content| == 2;
      assert |content| == 2 ==> (content + t)[0] == content[0] && u[o - 2..o][0] == content[0];
    }
  }

  // ----- Finding a boundary line that is not the opening -----

  lemma TextForm(items: seq<Item>, boundary: string)
    requires items != []
    ensures Serialize(items, boundary, true)
         == OpeningLine(boundary) + LinesText(Lines(items[0])) + FromEmptyLine(items, 0, boundary)
  {
    hide Lines, LinesText, FromEmptyLine, Serialize, Tail;
    SerializedForm(items, boundary);
    TailForm(items, 0, boundary);
    assert items[0..] == items;
    var l, u := LinesText(Lines(items[0])), FromEmptyLine(items, 0, boundary);
    assert DASH + boundary + (CRLF + (l + u)) == DASH + boundary + CRLF + l + u;
  }

  /** Only the last header line can end like a boundary line, and only if it is a type line. */
  lemma LineEnds(item: Item, e: nat)
    requires PlainItem(item)
    requires var l := LinesText(Lines(item)); 3 <= e <= |l| && l[e - 2..e] == CRLF && l[e - 3] != '"'
    ensures e == |LinesText(Lines(item))| && item.contentType != ""
  {
    hide DispositionLine, TypeLine, PlainItem;
    LinesOfItem(item);
    DispositionEnds(item);
    ItemLines(item);
    var l, d := LinesText(Lines(item)), DispositionLine(item);
    assert NoReturn(Lines(item)[0]);
    assert l[e - 2..e][0] == l[e - 2];
    assert item.contentType == "" ==> l == d + CRLF;
    if item.contentType != "" {
      assert NoReturn(Lines(item)[1]);
      assert l == d + CRLF + TypeLine(item) + CRLF;
    }
  }

  lemma DispositionEnds(item: Item)
    requires PlainItem(item)
    ensures DispositionLine(item) != "" && Last(DispositionLine(item)) == '"'
  {
    hide DispositionLine, ParamsText;
    DispositionLineIs(item);
    ParamsTextField(item);
  }

  lemma FoundLater(items: seq<Item>, boundary: string, q: nat)
    requires PlainItems(items, boundary) && q > 0
    requires At(Serialize(items, boundary, true), q, OpeningLine(boundary))
    ensures var t, u := Serialize(items, boundary, true)[q + |OpeningLine(boundary)|..],
            FromEmptyLine(items, 0, boundary);
            LineBehind(u, t) || (t == u && items[0].contentType != "")
  {
    hide PlainItem, FreeOf, Lines, LinesText, FromEmptyLine, Serialize, OpeningLine, IsBoundary;
    var text, l, u := Serialize(items, boundary, true), LinesText(Lines(items[0])), FromEmptyLine(items, 0, boundary);
    var o := OpeningLine(boundary);
    TextForm(items, boundary);
    StartsWithReturn(items, 0, boundary);
    LinesEndWithLineEnd(items[0]);
    var e := q + |o|;
    OpeningEnds(boundary);
    assert text[q..e] == o;
    assert text[e - 2] == o[|o| - 2] && text[e - 1] == o[|o| - 1] && text[e - 3] == o[|o| - 3];
    var m := |o| + |l|;
    assert text[m - 1] == l[|l| - 1];
    if e <= m {
      EndsInLines(items[0], o, l, u, text, e);
      assert text[m..] == u;
    } else {
      assert text[e - 1] == u[e - 1 - m];
      assert text[e..] == u[e - m..];
      assert u[e - m - 2..e - m] == text[e - 2..e] == CRLF;
      assert LineBehindBy(u, text[e..], e - m);
    }
  }

  lemma EndsInLines(item: Item, o: string, l: string, u: string, text: string, e: nat)
    requires PlainItem(item) && l == LinesText(Lines(item)) && text == o + l + u && |o| < e <= |o| + |l| && |o| >= 3
    requires text[e - 2..e] == CRLF && text[e - 3] != '"' && o[|o| - 2..] == CRLF
    requires l != "" && l[0] == 'C'
    ensures e == |o| + |l| && item.contentType != ""
  {
    hide PlainItem, Lines, LinesText;
    var n := e - |o|;
    assert text[e - 2..e][1] == text[e - 1] == l[n - 1];
    assert text[|o|] == l[0] && text[e - 2..e][0] == text[e - 2];
    assert n >= 3 ==> l[n - 2..n] == text[e - 2..e] && l[n - 3] == text[e - 3];
    LineEnds(item, n);
  }

  lemma OpeningEnds(boundary: string)
    requires IsBoundary(boundary)
    ensures var o := OpeningLine(boundary);
            |o| >= 4 && o[|o| - 2..] == CRLF && o[|o| - 3] != '"' && o[|o| - 3] != '\n'
  {
  }

  lemma LinesEndWithLineEnd(item: Item)
    ensures var l := LinesText(Lines(item)); l != "" && l[0] == 'C' && l[|l| - 1] == '\n'
  {
    LinesOfItem(item);
  }

  // ----- Piece by piece -----

  /** Nothing found yet, or misled. */
  ghost predicate Astray(boundary: string, items: seq<Item>, r: Result, rest: string) {
    r.ok ==> (r.parser == FRESH && r.events == []) || Misled(boundary, items, r.parser, rest, Collect([], r.events))
  }

  /** A piece without the boundary line is thrown away while the parser waits for the opening. */
  lemma OpeningIsLost(boundary: string, piece: string)
    requires FreeOf(piece, OpeningLine(boundary))
    ensures Feed(boundary, FRESH, piece) == Result(FRESH, [], true)
  {
    var p := FRESH.(buf := "" + piece);
    assert "" + piece == piece;
    FindIs(piece, OpeningLine(boundary), |piece|);
    assert piece[|piece|..] == "";
  }

  /** A boundary line found anywhere but at the start of the text misleads the parser. */
  lemma AstrayPiece(boundary: string, items: seq<Item>, before: string, piece: string, rest: string)
    requires PlainItems(items, boundary) && before != ""
    requires before + piece + rest == Serialize(items, boundary, true)
    ensures Astray(boundary, items, Feed(boundary, FRESH, piece), rest)
  {
    hide PlainItems, Serialize, Run, Misled, FreeOf, FirstAt;
    var o := OpeningLine(boundary);
    FindFirst(piece, o);
    var i := Find(piece, o);
    if i < |piece| {
      FirstIsThere(piece, o, i);
      var q := Parser(NewEntry, piece[i + |o|..], NO_PART, false);
      AstrayStart(boundary, items, before, piece, rest, i);
      FeedFinds(boundary, piece, i);
      MisledRun(boundary, items, q, rest, []);
    } else {
      NotThere(piece, o);
      OpeningIsLost(boundary, piece);
    }
  }

  lemma FirstIsThere(t: string, d: string, k: nat)
    requires FirstAt(t, d, k)
    ensures At(t, k, d)
  {
  }

  lemma NotThere(t: string, d: string)
    requires d != "" && Find(t, d) >= |t|
    ensures FreeOf(t, d)
  {
    FindFirst(t, d);
  }

  lemma OpeningStepFinds(boundary: string, p: Parser, i: nat)
    requires i == Find(p.buf, OpeningLine(boundary)) && At(p.buf, i, OpeningLine(boundary))
    ensures OpeningStep(boundary, p) == More(p.(buf := p.buf[i + |OpeningLine(boundary)|..], phase := NewEntry), [])
  {
    hide Find, OpeningLine;
    var o := OpeningLine(boundary);
    assert p.buf[i..][0..|o|] == p.buf[i..i + |o|];
    assert p.buf[i..][|o|..] == p.buf[i + |o|..];
  }

  lemma FeedFinds(boundary: string, piece: string, i: nat)
    requires i == Find(piece, OpeningLine(boundary)) < |piece| && At(piece, i, OpeningLine(boundary))
    ensures var r := Run(boundary, Parser(NewEntry, piece[i + |OpeningLine(boundary)|..], NO_PART, false));
            Feed(boundary, FRESH, piece) == Result(r.parser, r.events, r.ok)
  {
    hide OpeningStep, OpeningLine, Find;
    var p := Parser(Opening, piece, NO_PART, false);
    var q := Parser(NewEntry, piece[i + |OpeningLine(boundary)|..], NO_PART, false);
    assert FRESH.(buf := FRESH.buf + piece) == p;
    OpeningStepFinds(boundary, p, i);
    assert StepOf(boundary, p) == More(q, []);
    assert [] + Run(boundary, q).events == Run(boundary, q).events;
  }

  lemma AstrayStart(boundary: string, items: seq<Item>, before: string, piece: string, rest: string, i: nat)
    requires PlainItems(items, boundary) && before != "" && At(piece, i, OpeningLine(boundary))
    requires before + piece + rest == Serialize(items, boundary, true)
    ensures Misled(boundary, items, Parser(NewEntry, piece[i + |OpeningLine(boundary)|..], NO_PART, false), rest, [])
  {
    hide PlainItem, FreeOf, Serialize, FromEmptyLine, LineBehind;
    var o, text, q := OpeningLine(boundary), Serialize(items, boundary, true), |before| + i;
    assert text[q..q + |o|] == piece[i..i + |o|];
    assert text[q + |o|..] == piece[i + |o|..] + rest;
    FoundLater(items, boundary, q);
  }

  lemma {:induction false} AstrayPieces(boundary: string, items: seq<Item>, pieces: seq<string>, rest: string)
    requires PlainItems(items, boundary) && Join(pieces) + rest == Serialize(items, boundary, true)
    requires pieces != [] && 0 < |pieces[0]| < |OpeningLine(boundary)|
    ensures Astray(boundary, items, FeedAll(boundary, FRESH, pieces), rest)
    decreases |pieces|
  {
    hide PlainItems, Serialize, Run, Misled, OpeningLine;
    var before, last := Init(pieces), Last(pieces);
    if before == [] {
      TooShort(last, OpeningLine(boundary));
      OpeningIsLost(boundary, last);
    } else {
      assert Join(before) + (last + rest) == Join(pieces) + rest;
      AstrayPieces(boundary, items, before, last + rest);
      FirstPieceCounts(before);
      var r := FeedAll(boundary, FRESH, before);
      if r.ok && r.parser == FRESH && r.events == [] {
        AstrayPiece(boundary, items, Join(before), last, rest);
        assert [] + Feed(boundary, FRESH, last).events == Feed(boundary, FRESH, last).events;
      } else if r.ok {
        var p := r.parser.(buf := r.parser.buf + last);
        MisledArrival(boundary, items, r.parser, last, rest, Collect([], r.events));
        MisledRun(boundary, items, p, rest, Collect([], r.events));
        CollectConcat([], r.events, Run(boundary, p).events);
      }
    }
  }

  lemma TooShort(t: string, d: string)
    requires |t| < |d|
    ensures FreeOf(t, d)
  {
  }

  lemma {:induction false} FirstPieceCounts(pieces: seq<string>)
    requires pieces != []
    ensures |Join(pieces)| >= |pieces[0]|
  {
    if |pieces| == 1 {
      assert Init(pieces) == [];
    } else {
      FirstPieceCounts(Init(pieces));
    }
  }

  lemma {:induction false} ShortStartFails(items: seq<Item>, boundary: string, pieces: seq<string>)
    requires PlainItems(items, boundary) && Arrives(pieces, items, boundary)
    requires |FirstBytes(pieces)| < |OpeningLine(boundary)|
    ensures !RoundTrips(pieces, items, boundary)
    decreases |pieces|
  {
    hide PlainItems, Serialize, OpeningLine, Misled;
    TextNotEmpty(items, boundary);
    if pieces[0] == "" {
      EmptyPieceSkipped(boundary, pieces);
      ShortStartFails(items, boundary, pieces[1..]);
    } else {
      assert Join(pieces) + "" == Join(pieces);
      AstrayPieces(boundary, items, pieces, "");
      var r := FeedAll(boundary, FRESH, pieces);
      if r.ok && r.parser.valid {
        MisledIsNotDone(boundary, items, r.parser, "", Collect([], r.events));
      }
    }
  }

  lemma TextNotEmpty(items: seq<Item>, boundary: string)
    ensures Serialize(items, boundary, true) != ""
  {
  }

  /** The condition on the opening is exact, whatever the entries and the splitting are: entries come back
      precisely if the first bytes to arrive are at least the whole opening boundary line. */
  lemma RoundTripIffOpeningWhole(items: seq<Item>, boundary: string, pieces: seq<string>)
    requires GoodItems(items, boundary) && Arrives(pieces, items, boundary)
    ensures RoundTrips(pieces, items, boundary) <==> |FirstBytes(pieces)| >= |OpeningLine(boundary)|
  {
    if |FirstBytes(pieces)| >= |OpeningLine(boundary)| {
      MultipartRoundTrip.MultipartRoundTrip(items, boundary, pieces);
    } else {
      ShortStartFails(items, boundary, pieces);
    }
  }
}
