/** How long a header line may be: the parser allows 8192 bytes, but sees the first byte of the line end too
    if the text is cut there. */
module MultipartLimits {
  import opened Lists
  import opened HttpText
  import opened Multipart
  import opened MultipartHeaders
  import opened MultipartRoundTrip

  // ----- Between two header lines -----

  /** If parse has succeeded, it is about to read a header line of which nothing has arrived. */
  predicate AwaitsLine(r: Result) {
    r.ok ==> r.parser.buf == "" && (r.parser.phase == NewEntry || r.parser.phase == Headers)
  }

  lemma RoundAwaits(boundary: string, p: Parser)
    requires p.buf != ""
    ensures var s := StepOf(boundary, p);
            if s.Stop? then Run(boundary, p).ok == s.ok && Run(boundary, p).parser == s.parser
            else Run(boundary, p).ok == Run(boundary, s.parser).ok
                 && Run(boundary, p).parser == Run(boundary, s.parser).parser
  {
  }

  lemma FindAtFirst(t: string, d: string, k: nat)
    requires d != "" && FirstAt(t, d, k)
    ensures Find(t, d) == k
  {
    FindIs(t, d, k);
  }

  /** Header lines that have all arrived are read to their end. */
  lemma {:induction false} HeaderLinesThrough(boundary: string, item: Item, k: nat, rest: string, p: Parser)
    requires PlainItem(item) && k <= |Lines(item)| && p.part == PartAfter(item, k)
    requires p.buf == EntryText(item, k, boundary, rest)
    ensures var s := HeaderLines(p);
            s.More? && s.parser.phase == Body && s.parser.buf == ContentText(item.content, boundary, rest)
            && s.parser.valid == p.valid
    decreases |Lines(item)| - k
  {
    hide PlainItem, ReadLine, EntryText, ContentText, Lines, PartAfter, Find, FirstAt, DispositionLine, TypeLine;
    if k < |Lines(item)| {
      var line, more := Lines(item)[k], EntryText(item, k + 1, boundary, rest);
      NextLine(item, k, boundary, rest);
      FindAtFirst(p.buf, CRLF, |line|);
      assert (line + CRLF + more)[..|line|] == line && (line + CRLF + more)[|line| + 2..] == more;
      ReadsBack(item, k);
      HeaderLinesThrough(boundary, item, k + 1, rest, p.(buf := more, part := PartAfter(item, k + 1)));
    } else {
      LastLineText(item, boundary, rest);
      EmptyLineFirst(ContentText(item.content, boundary, rest));
      FindAtFirst(p.buf, CRLF, 0);
    }
  }

  lemma ContentThrough(boundary: string, content: string, rest: string, p: Parser)
    requires IsBoundary(boundary) && FreeOf(content, Delimiter(boundary))
    requires p.phase == Body && p.buf == ContentText(content, boundary, rest)
    ensures BodyStep(boundary, p) == More(p.(buf := rest, phase := Boundary), [Content(content)])
  {
    hide FreeOf, FirstAt;
    var d := Delimiter(boundary);
    DelimiterForm(boundary);
    DelimiterIsFirst(content, d, rest);
    FindAtFirst(p.buf, d, |content|);
    assert p.buf[..|content|] == content && p.buf[|content| + |d|..] == rest;
  }

  /** A whole entry between two boundaries is read through, or refused. */
  lemma EntryThrough(boundary: string, item: Item, rest: string, p: Parser)
    requires IsBoundary(boundary) && PlainItem(item) && FreeOf(item.content, Delimiter(boundary))
    requires p.phase == Boundary && p.buf == CRLF + EntryText(item, 0, boundary, rest)
    requires forall q: Parser :: q.phase == Boundary && q.buf == rest ==> AwaitsLine(Run(boundary, q))
    ensures AwaitsLine(Run(boundary, p))
  {
    hide Run, PlainItem, FreeOf, HeaderLines, BodyStep, EntryText, ContentText, Find, DispositionLine, TypeLine;
    var entry := EntryText(item, 0, boundary, rest);
    assert p.buf[0..2] == CRLF && p.buf[2..] == entry;
    RoundAwaits(boundary, p);
    EntryIsText(item, boundary, rest);
    var q := p.(buf := entry, phase := NewEntry);
    RoundAwaits(boundary, q);
    var h := q.(part := NO_PART, phase := Headers);
    RoundAwaits(boundary, h);
    if Find(entry, CRLF) <= HEADER_MAX_LENGTH {
      HeaderLinesThrough(boundary, item, 0, rest, h);
      var b := HeaderLines(h).parser;
      RoundAwaits(boundary, b);
      ContentThrough(boundary, item.content, rest, b);
    }
  }

  lemma EntryIsText(item: Item, boundary: string, rest: string)
    ensures EntryText(item, 0, boundary, rest) != "" && ContentText(item.content, boundary, rest) != ""
  {
  }

  lemma {:induction false} EntriesThrough(boundary: string, items: seq<Item>, z: string, p: Parser)
    requires items != [] ==> PlainItems(items, boundary)
    requires p.phase == Boundary && p.buf == TailThen(items, boundary, z)
    requires forall q: Parser :: q.phase == Boundary && q.buf == z ==> AwaitsLine(Run(boundary, q))
    ensures AwaitsLine(Run(boundary, p))
  {
    hide PlainItem, FreeOf, EntryText, Run, AwaitsLine;
    if items == [] {
    } else {
      var rest := TailThen(items[1..], boundary, z);
      forall q: Parser | q.phase == Boundary && q.buf == rest
        ensures AwaitsLine(Run(boundary, q))
      {
        EntriesThrough(boundary, items[1..], z, q);
      }
      EntryThrough(boundary, items[0], rest, p);
    }
  }

  // ----- The text in front of a header line -----

  /** From a boundary to the k-th header line behind it. */
  function UpToLine(item: Item, k: nat): string
    requires k < |Lines(item)|
  {
    if k == 0 then CRLF else CRLF + Lines(item)[0] + CRLF
  }

  lemma LineAwaited(boundary: string, item: Item, k: nat, p: Parser)
    requires PlainItem(item) && k < |Lines(item)| && p.phase == Boundary && p.buf == UpToLine(item, k)
    ensures AwaitsLine(Run(boundary, p))
  {
    hide PlainItem, ReadLine, Find, DispositionLine, TypeLine;
    assert p.buf[0..2] == CRLF;
    RoundAwaits(boundary, p);
    if k > 0 {
      var line := Lines(item)[0];
      var h := p.(buf := line + CRLF, part := NO_PART, phase := Headers);
      assert p.buf[2..] == line + CRLF;
      RoundAwaits(boundary, p.(buf := line + CRLF, phase := NewEntry));
      RoundAwaits(boundary, h);
      OneLine(item, h);
    }
  }

  /** The first header line alone is read, and the next one awaited. */
  lemma OneLine(item: Item, p: Parser)
    requires PlainItem(item) && p.part == NO_PART && p.buf == Lines(item)[0] + CRLF
    ensures HeaderLines(p) == Stop(p.(buf := "", part := PartAfter(item, 1)), [], true)
  {
    hide PlainItem, ReadLine, Find, FirstAt, DispositionLine, TypeLine;
    var line := Lines(item)[0];
    LineIsPlain(item, 0);
    FreeWithoutFirst(line, CRLF);
    DelimiterIsFirst(line, CRLF, "");
    assert line + CRLF + "" == line + CRLF;
    FindAtFirst(p.buf, CRLF, |line|);
    assert p.buf[..|line|] == line && p.buf[|line| + 2..] == "";
    ReadsBack(item, 0);
    NothingToRead(p.(buf := "", part := PartAfter(item, 1)));
  }

  lemma NothingToRead(p: Parser)
    requires p.buf == ""
    ensures HeaderLines(p) == Stop(p, [], true)
  {
    FindFirst("", CRLF);
  }

  lemma {:induction false} TailThenSplit(items: seq<Item>, i: nat, boundary: string, end: string)
    requires i <= |items|
    ensures TailThen(items, boundary, end) == TailThen(items[..i], boundary, TailThen(items[i..], boundary, end))
  {
    hide EntryText;
    if i == 0 {
      assert items[..0] == [] && items[0..] == items;
    } else {
      assert items[..i][1..] == items[1..][..i - 1] && items[1..][i - 1..] == items[i..];
      TailThenSplit(items[1..], i - 1, boundary, end);
    }
  }

  lemma {:induction false} TailThenAppend(items: seq<Item>, boundary: string, z: string, w: string)
    ensures TailThen(items, boundary, z + w) == TailThen(items, boundary, z) + w
  {
    hide EntryText;
    if items == [] {
    } else {
      var rest := TailThen(items[1..], boundary, z);
      TailThenAppend(items[1..], boundary, z, w);
      EntryAppend(items[0], boundary, rest, w);
      assert CRLF + (EntryText(items[0], 0, boundary, rest) + w) == CRLF + EntryText(items[0], 0, boundary, rest) + w;
    }
  }

  lemma EntryAppend(item: Item, boundary: string, rest: string, w: string)
    ensures EntryText(item, 0, boundary, rest + w) == EntryText(item, 0, boundary, rest) + w
  {
    hide Lines, LinesText;
    var l, c, d := LinesText(Lines(item)[0..]), item.content, Delimiter(boundary);
    assert l + (CRLF + (c + d + (rest + w))) == l + (CRLF + (c + d + rest)) + w;
  }

  /** Everything in front of the k-th header line of entry i. */
  function Before(items: seq<Item>, i: nat, k: nat, boundary: string): string
    requires i < |items| && k < |Lines(items[i])|
  {
    DASH + boundary + TailThen(items[..i], boundary, UpToLine(items[i], k))
  }

  lemma LineInText(items: seq<Item>, i: nat, k: nat, boundary: string) returns (after: string)
    requires PlainItems(items, boundary) && i < |items| && k < |Lines(items[i])|
    ensures Serialize(items, boundary, true) == Before(items, i, k, boundary) + (Lines(items[i])[k] + CRLF + after)
  {
    hide PlainItem, FreeOf, EntryText, DispositionLine, TypeLine, Serialize;
    var item, rest := items[i], TailThen(items[i + 1..], boundary, DASH + CRLF);
    SerializedForm(items, boundary);
    TailThenSplit(items, i, boundary, DASH + CRLF);
    assert items[i..][1..] == items[i + 1..] && items[i..][0] == item;
    after := EntryText(item, k + 1, boundary, rest);
    var z, w := UpToLine(item, k), Lines(item)[k] + CRLF + after;
    NextLine(item, 0, boundary, rest);
    if k > 0 {
      NextLine(item, 1, boundary, rest);
      assert CRLF + (Lines(item)[0] + CRLF + w) == CRLF + Lines(item)[0] + CRLF + w;
    }
    assert TailThen(items[i..], boundary, DASH + CRLF) == z + w;
    TailThenAppend(items[..i], boundary, z, w);
    assert DASH + boundary + (TailThen(items[..i], boundary, z) + w) ==
           DASH + boundary + TailThen(items[..i], boundary, z) + w;
  }

  lemma BeforeForm(items: seq<Item>, i: nat, k: nat, boundary: string) returns (entry: string)
    requires i < |items| && k < |Lines(items[i])|
    ensures TailThen(items[..i], boundary, UpToLine(items[i], k)) == CRLF + entry
    ensures Before(items, i, k, boundary) == OpeningLine(boundary) + entry
  {
    hide EntryText, DispositionLine, TypeLine;
    var tail := TailThen(items[..i], boundary, UpToLine(items[i], k));
    assert tail[..2] == CRLF;
    entry := tail[2..];
    assert DASH + boundary + (CRLF + entry) == DASH + boundary + CRLF + entry;
  }

  /** Fed everything in front of a header line, the parser awaits that line. */
  lemma BeforeAwaits(items: seq<Item>, i: nat, k: nat, boundary: string)
    requires PlainItems(items, boundary) && i < |items| && k < |Lines(items[i])|
    ensures AwaitsLine(Feed(boundary, FRESH, Before(items, i, k, boundary)))
  {
    hide PlainItem, FreeOf, Run, Before, UpToLine, OpeningLine, TailThen;
    var item, x, z := items[i], Before(items, i, k, boundary), UpToLine(items[i], k);
    var entry := BeforeForm(items, i, k, boundary);
    var p := Parser(Boundary, CRLF + entry, NO_PART, false);
    forall q: Parser | q.phase == Boundary && q.buf == z
      ensures AwaitsLine(Run(boundary, q))
    {
      LineAwaited(boundary, item, k, q);
    }
    EntriesThrough(boundary, items[..i], z, p);
    assert p.buf[0..2] == CRLF && p.buf[2..] == entry;
    RoundAwaits(boundary, p);
    assert x + "" == x && x[|OpeningLine(boundary)|..] + "" == x[|OpeningLine(boundary)|..];
    OpeningFound(boundary, x, "", entry);
  }

  // ----- The limit -----

  /** A line that is too long for the bytes that have arrived of it is refused. */
  lemma UnfinishedLineRefused(boundary: string, p: Parser, line: string)
    requires p.buf == "" && (p.phase == NewEntry || p.phase == Headers)
    requires |line| >= HEADER_MAX_LENGTH && forall i :: 0 <= i < |line| ==> line[i] != '\r'
    ensures !Feed(boundary, p, line + "\r").ok
  {
    hide HeaderLines;
    var buf := line + "\r";
    assert "" + buf == buf;
    NoLineEndYet(line);
    var q := p.(buf := buf);
    RoundAwaits(boundary, q);
    if p.phase == NewEntry {
      RoundAwaits(boundary, q.(part := NO_PART, phase := Headers));
    }
  }

  lemma NoLineEndYet(line: string)
    requires forall i :: 0 <= i < |line| ==> line[i] != '\r'
    ensures Find(line + "\r", CRLF) == |line| + 1
  {
    var buf := line + "\r";
    forall i | 0 <= i < |buf|
      ensures !At(buf, i, CRLF)
    {
      if i + 2 <= |buf| {
        assert buf[i..i + 2][0] == buf[i] == line[i];
        assert CRLF[0] == '\r';
      }
    }
    FindIs(buf, CRLF, |buf|);
  }

  /** Cut in front of an over-long header line and in the middle of its line end, a text is refused. */
  lemma LongLineRefused(items: seq<Item>, i: nat, k: nat, boundary: string) returns (pieces: seq<string>)
    requires PlainItems(items, boundary) && i < |items| && k < |Lines(items[i])|
    requires |Lines(items[i])[k]| >= HEADER_MAX_LENGTH
    ensures Arrives(pieces, items, boundary) && |FirstBytes(pieces)| >= |OpeningLine(boundary)|
    ensures !FeedAll(boundary, FRESH, pieces).ok
  {
    hide PlainItem, FreeOf, Before, Lines, Serialize, Feed;
    var x, line := Before(items, i, k, boundary), Lines(items[i])[k];
    var after := LineInText(items, i, k, boundary);
    var entry := BeforeForm(items, i, k, boundary);
    LineIsPlain(items[i], k);
    BeforeAwaits(items, i, k, boundary);
    pieces := [x, line + "\r", "\n" + after];
    ThreePieces(boundary, x, line + "\r", "\n" + after);
    assert x + (line + "\r") + ("\n" + after) == x + (line + CRLF + after);
    var r := Feed(boundary, FRESH, x);
    if r.ok {
      UnfinishedLineRefused(boundary, r.parser, line);
    }
  }

  lemma ThreePieces(boundary: string, x: string, y: string, z: string)
    ensures Join([x, y, z]) == x + y + z
    ensures var r := Feed(boundary, FRESH, x);
            FeedAll(boundary, FRESH, [x, y, z]).ok ==> r.ok && Feed(boundary, r.parser, y).ok
  {
    hide Feed;
    JoinLast([], x);
    JoinLast([x], y);
    JoinLast([x, y], z);
    FeedLast(boundary, [], x);
    FeedLast(boundary, [x], y);
    FeedLast(boundary, [x, y], z);
    assert [] + [x] == [x] && [x] + [y] == [x, y] && [x, y] + [z] == [x, y, z];
  }

  lemma JoinLast(pieces: seq<string>, last: string)
    ensures Join(pieces + [last]) == Join(pieces) + last
  {
    assert Init(pieces + [last]) == pieces;
  }

  lemma FeedLast(boundary: string, pieces: seq<string>, last: string)
    ensures var r, s := FeedAll(boundary, FRESH, pieces), FeedAll(boundary, FRESH, pieces + [last]);
            if r.ok then s.ok == Feed(boundary, r.parser, last).ok && s.parser == Feed(boundary, r.parser, last).parser
               else s == r
  {
    hide Feed;
    assert Init(pieces + [last]) == pieces && Last(pieces + [last]) == last;
  }

  /** The bound on header lines is exact: a list of entries is read back from every splitting whose first bytes
      hold the opening boundary line precisely if each of its header lines is shorter than 8192 bytes. */
  lemma RoundTripIffLinesShort(items: seq<Item>, boundary: string)
    requires PlainItems(items, boundary)
    ensures (forall pieces :: Arrives(pieces, items, boundary) && |FirstBytes(pieces)| >= |OpeningLine(boundary)| ==>
               RoundTrips(pieces, items, boundary))
            <==> ShortLines(items)
  {
    hide PlainItems, Arrives, RoundTrips, Lines, OpeningLine;
    if ShortLines(items) {
      forall pieces | Arrives(pieces, items, boundary) && |FirstBytes(pieces)| >= |OpeningLine(boundary)|
        ensures RoundTrips(pieces, items, boundary)
      {
        MultipartRoundTrip.MultipartRoundTrip(items, boundary, pieces);
      }
    } else {
      var i, k :| 0 <= i < |items| && 0 <= k < |Lines(items[i])| && |Lines(items[i])[k]| >= HEADER_MAX_LENGTH;
      var pieces := LongLineRefused(items, i, k, boundary);
      NotRoundTripped(pieces, items, boundary);
    }
  }

  lemma NotRoundTripped(pieces: seq<string>, items: seq<Item>, boundary: string)
    requires !FeedAll(boundary, FRESH, pieces).ok
    ensures !RoundTrips(pieces, items, boundary)
  {
  }

  /** In particular, from the first byte on: an opening and a line of 8192 bytes or more, cut after the first
      byte of its line end, are refused. */
  lemma FullLengthLineRefused(boundary: string, line: string)
    requires |line| >= HEADER_MAX_LENGTH && forall i :: 0 <= i < |line| ==> line[i] != '\r'
    ensures !Feed(boundary, FRESH, OpeningLine(boundary) + line + "\r").ok
  {
    hide Run;
    var o, entry := OpeningLine(boundary), line + "\r";
    var piece := o + line + "\r";
    assert piece + "" == o + entry && piece[|o|..] == entry;
    OpeningFound(boundary, piece, "", entry);
    assert "" + entry == entry;
    UnfinishedLineRefused(boundary, Parser(NewEntry, "", NO_PART, false), line);
  }
}
