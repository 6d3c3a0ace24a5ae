/** When a multipart body counts as complete, and what stops the parser for good. */
module MultipartEnds {
  import opened Lists
  import opened HttpText
  import opened Multipart
  import opened MultipartRoundTrip

  /** A body that has arrived up to `rest` is taken as complete exactly if nothing but the last line end is missing;
      until then no piece is refused. */
  lemma {:induction false} CompleteIffEndArrived(items: seq<Item>, boundary: string, pieces: seq<string>, rest: string)
    requires GoodItems(items, boundary) && Join(pieces) + rest == Serialize(items, boundary, true)
    requires |FirstBytes(pieces)| >= |OpeningLine(boundary)|
    ensures var r := FeedAll(boundary, FRESH, pieces);
            && r.ok && (r.parser.valid <==> |rest| <= 2)
            && (|rest| <= 2 ==> Collect([], r.events) == items)
    decreases |pieces|
  {
    hide GoodItems, Serialize;
    if pieces[0] == "" {
      EmptyPieceSkipped(boundary, pieces);
      CompleteIffEndArrived(items, boundary, pieces[1..], rest);
    } else {
      FeedAllOnTrack(boundary, items, pieces, rest);
      var r := FeedAll(boundary, FRESH, pieces);
      ValidOnlyAtEnd(boundary, items, r.parser, rest, Collect([], r.events));
    }
  }

  lemma ValidOnlyAtEnd(boundary: string, items: seq<Item>, p: Parser, rest: string, acc: seq<Item>)
    requires Fine(boundary, items, p, rest, acc)
    ensures (p.valid <==> |rest| <= 2) && (|rest| <= 2 ==> acc == items)
  {
    hide EntryText, Tail, ContentText;
    if AtEnd(items, p, rest, acc) {
      assert |p.buf + rest| <= 2;
    }
  }

  /** Behind a boundary there is something that neither begins another entry nor ends the body. */
  predicate Stuck(p: Parser) {
    p.phase == Boundary && |p.buf| >= 2 && !At(p.buf, 0, CRLF) && !At(p.buf, 0, DASH)
  }

  /** From then on every piece is taken and nothing comes of it. */
  lemma {:induction false} StuckForGood(boundary: string, p: Parser, pieces: seq<string>)
    requires Stuck(p)
    ensures FeedAll(boundary, p, pieces) == Result(p.(buf := p.buf + Join(pieces)), [], true)
    ensures Stuck(p.(buf := p.buf + Join(pieces)))
  {
    if pieces == [] {
      assert p.buf + "" == p.buf;
    } else {
      StuckForGood(boundary, p, Init(pieces));
      var q := p.(buf := p.buf + Join(Init(pieces)));
      var t := q.buf + Last(pieces);
      assert t == p.buf + Join(pieces);
      assert t[0..2] == q.buf[0..2];
    }
  }

  /** A header line that the parser does not take ends the body. */
  lemma BadLineEndsBody(boundary: string, p: Parser, line: string, z: string)
    requires p.phase == Headers && p.buf == "" && line != "" && |line| <= HEADER_MAX_LENGTH
    requires (forall i :: 0 <= i < |line| ==> line[i] != '\r') && !ReadLine(p.part, line).ok
    ensures var r := Feed(boundary, p, line + CRLF + z); !r.ok && r.events == [] && !r.parser.valid
  {
    hide ReadLine, Find;
    var t := line + CRLF + z;
    assert "" + t == t;
    FreeWithoutFirst(line, CRLF);
    DelimiterIsFirst(line, CRLF, z);
    FindIs(t, CRLF, |line|);
    assert t[..|line|] == line;
  }

  // ----- What is kept back -----

  /** While a content is being read, no more of it is kept back than the delimiter is long. */
  ghost predicate KeepsLittle(boundary: string, p: Parser) {
    p.phase == Body ==> |p.buf| <= |Delimiter(boundary)|
  }

  lemma StopKeepsLittle(boundary: string, p: Parser)
    ensures StepOf(boundary, p).Stop? ==> KeepsLittle(boundary, StepOf(boundary, p).parser)
  {
    hide HeaderLines, Find;
    match p.phase
    case Body => FindFirst(p.buf, Delimiter(boundary));
    case Headers => StopsInHeaders(p);
    case _ =>
  }

  lemma {:induction false} StopsInHeaders(p: Parser)
    requires p.phase == Headers
    ensures HeaderLines(p).Stop? ==> HeaderLines(p).parser.phase == Headers
    decreases |p.buf|
  {
    hide ReadLine, Find;
    var pos := Find(p.buf, CRLF);
    FindFirst(p.buf, CRLF);
    if pos == |p.buf| || pos == 0 {
    } else if ReadLine(p.part, p.buf[..pos]).ok {
      StopsInHeaders(p.(buf := p.buf[pos + 2..], part := ReadLine(p.part, p.buf[..pos]).part));
    }
  }

  /** So every call hands on all of a content that has arrived, but for as many bytes. */
  lemma {:induction false} ContentIsHandedOn(boundary: string, p: Parser)
    ensures KeepsLittle(boundary, Run(boundary, p).parser)
    decreases |p.buf|, Rank(p.phase)
  {
    hide StepOf, KeepsLittle;
    if p.buf == "" {
      NothingKept(boundary, p);
    } else {
      StopKeepsLittle(boundary, p);
      if StepOf(boundary, p).More? {
        StepShrinks(boundary, p);
        ContentIsHandedOn(boundary, StepOf(boundary, p).parser);
      }
    }
  }

  lemma NothingKept(boundary: string, p: Parser)
    requires p.buf == ""
    ensures KeepsLittle(boundary, p)
  {
  }
}
