/** Feeding what the serializer writes, in any pieces, gives back the entries. */
module MultipartRoundTrip {
  import opened HeaderFields
  import opened Lists
  import opened HttpText
  import opened Multipart
  import opened MultipartHeaders

  // ----- The text, seen from the parser -----

  function LinesText(lines: seq<string>): string {
    if lines == [] then "" else lines[0] + CRLF + LinesText(lines[1..])
  }

  /** From the content of an entry on. */
  function ContentText(content: string, boundary: string, rest: string): string {
    content + Delimiter(boundary) + rest
  }

  /** From the k-th header line of an entry on. */
  function EntryText(item: Item, k: nat, boundary: string, rest: string): string
    requires k <= |Lines(item)|
  {
    LinesText(Lines(item)[k..]) + (CRLF + ContentText(item.content, boundary, rest))
  }

  /** From behind a boundary on, with these entries still to come. */
  function Tail(items: seq<Item>, boundary: string): string {
    TailThen(items, boundary, DASH + CRLF)
  }

  function TailThen(items: seq<Item>, boundary: string, end: string): string {
    if items == [] then end else CRLF + EntryText(items[0], 0, boundary, TailThen(items[1..], boundary, end))
  }

  lemma ItemIsEntry(item: Item, boundary: string, rest: string)
    ensures ItemBegin(item, boundary) + item.content + ItemEnd() + (DASH + boundary + rest)
         == DASH + boundary + TailThen([item], boundary, rest)
  {
    var d, l := DispositionLine(item), TypeLine(item);
    var kind := if item.contentType != "" then l + CRLF else "";
    assert [item][1..] == [] && TailThen([], boundary, rest) == rest;
    LinesOfItem(item);
    assert Lines(item)[0..] == Lines(item);
    FourParts(DASH + boundary, CRLF, d, kind, item.content, boundary, rest);
  }

  lemma LinesOfItem(item: Item)
    ensures LinesText(Lines(item)) ==
            DispositionLine(item) + CRLF + (if item.contentType != "" then TypeLine(item) + CRLF else "")
  {
    hide DispositionLine, TypeLine;
    var lines := Lines(item);
    if item.contentType != "" {
      assert lines[1..] == [TypeLine(item)] && lines[1..][1..] == [];
      assert LinesText(lines[1..]) == TypeLine(item) + CRLF;
    } else {
      assert lines[1..] == [];
    }
  }

  lemma FourParts(open: string, crlf: string, d: string, kind: string, content: string, boundary: string, rest: string)
    ensures open + crlf + d + crlf + kind + crlf + content + crlf + (DASH + boundary + rest)
         == open + (crlf + (d + crlf + kind + (crlf + (content + (crlf + DASH + boundary) + rest))))
  {
  }

  lemma {:induction false} TailThenLast(items: seq<Item>, boundary: string, end: string)
    requires items != []
    ensures TailThen(items, boundary, end) == TailThen(Init(items), boundary, TailThen([Last(items)], boundary, end))
  {
    if |items| == 1 {
      assert items == [Last(items)];
    } else {
      assert Init(items)[1..] == Init(items[1..]);
      TailThenLast(items[1..], boundary, end);
    }
  }

  lemma {:induction false} ItemsAreEntries(items: seq<Item>, boundary: string, end: string)
    ensures SerializeItems(items, boundary) + (DASH + boundary + end) ==
            DASH + boundary + TailThen(items, boundary, end)
  {
    hide ItemBegin, EntryText;
    if items == [] {
    } else {
      var before, last := SerializeItems(Init(items), boundary), Last(items);
      var entry := ItemBegin(last, boundary) + last.content + ItemEnd();
      TailThenLast(items, boundary, end);
      ItemIsEntry(last, boundary, end);
      ItemsAreEntries(Init(items), boundary, TailThen([last], boundary, end));
      assert SerializeItems(items, boundary) + (DASH + boundary + end) == before + (entry + (DASH + boundary + end));
    }
  }

  lemma SerializedForm(items: seq<Item>, boundary: string)
    ensures Serialize(items, boundary, true) == DASH + boundary + Tail(items, boundary)
  {
    ItemsAreEntries(items, boundary, DASH + CRLF);
    assert Finish(boundary) == DASH + boundary + (DASH + CRLF);
  }

  // ----- Where the parser can be -----

  /** The entries: at least one, with plain header text, and contents without the delimiter. */
  ghost predicate PlainItems(items: seq<Item>, boundary: string) {
    items != [] && IsBoundary(boundary)
    && forall i :: 0 <= i < |items| ==> PlainItem(items[i]) && FreeOf(items[i].content, Delimiter(boundary))
  }

  /** A header line and the first byte of its line end stay within the length that the parser allows. */
  ghost predicate ShortLines(items: seq<Item>) {
    forall i, k :: 0 <= i < |items| && 0 <= k < |Lines(items[i])| ==> |Lines(items[i])[k]| < 8192
  }

  ghost predicate GoodItems(items: seq<Item>, boundary: string) {
    PlainItems(items, boundary) && ShortLines(items)
  }

  function Empty(item: Item): Item {
    item.(content := "")
  }

  ghost predicate AtHeaders(boundary: string, items: seq<Item>, p: Parser, rest: string, acc: seq<Item>, k: nat) {
    && p.phase == Headers && !p.valid && |acc| < |items| && acc == items[..|acc|]
    && k <= |Lines(items[|acc|])| && p.part == PartAfter(items[|acc|], k)
    && p.buf + rest == EntryText(items[|acc|], k, boundary, Tail(items[|acc| + 1..], boundary))
  }

  ghost predicate AtEntry(boundary: string, items: seq<Item>, p: Parser, rest: string, acc: seq<Item>) {
    && p.phase == NewEntry && !p.valid && |acc| < |items| && acc == items[..|acc|]
    && p.buf + rest == EntryText(items[|acc|], 0, boundary, Tail(items[|acc| + 1..], boundary))
  }

  /** `left` is the part of the current content that has not been handed on. */
  ghost predicate AtBody(boundary: string, items: seq<Item>, p: Parser, rest: string, acc: seq<Item>, left: string) {
    && p.phase == Body && !p.valid && 0 < |acc| <= |items|
    && Init(acc) == items[..|acc| - 1]
    && items[|acc| - 1] == Last(acc).(content := Last(acc).content + left)
    && FreeOf(left, Delimiter(boundary))
    && p.buf + rest == ContentText(left, boundary, Tail(items[|acc|..], boundary))
  }

  ghost predicate AtBoundary(boundary: string, items: seq<Item>, p: Parser, rest: string, acc: seq<Item>) {
    && p.phase == Boundary && !p.valid && 0 < |acc| <= |items| && acc == items[..|acc|]
    && p.buf + rest == Tail(items[|acc|..], boundary)
  }

  /** Everything has been delivered; at most the last line end is still to come. */
  ghost predicate AtEnd(items: seq<Item>, p: Parser, rest: string, acc: seq<Item>) {
    && p.valid && acc == items
    && (p.buf + rest == "" || (p.phase == Boundary && (p.buf + rest == CRLF || p.buf + rest == "\n")))
    && (p.phase == Boundary || p.phase == NewEntry)
  }

  ghost predicate OnTrack(boundary: string, items: seq<Item>, p: Parser, rest: string, acc: seq<Item>) {
    || AtEntry(boundary, items, p, rest, acc)
    || (exists k: nat :: AtHeaders(boundary, items, p, rest, acc, k))
    || (exists left :: AtBody(boundary, items, p, rest, acc, left))
    || AtBoundary(boundary, items, p, rest, acc)
    || AtEnd(items, p, rest, acc)
  }

  /** What a step, or a whole call, may end in: still on track, and done if at most the last line end is to come. */
  ghost predicate Fine(boundary: string, items: seq<Item>, p: Parser, rest: string, acc: seq<Item>) {
    OnTrack(boundary, items, p, rest, acc) && (|rest| <= 2 ==> AtEnd(items, p, rest, acc))
  }

  ghost predicate GoodStep(boundary: string, items: seq<Item>, s: Step, rest: string, acc: seq<Item>) {
    if s.Stop? then s.ok && Fine(boundary, items, s.parser, rest, Collect(acc, s.events))
    else OnTrack(boundary, items, s.parser, rest, Collect(acc, s.events))
  }

  lemma CollectNone(acc: seq<Item>)
    ensures Collect(acc, []) == acc
  {
  }

  lemma CollectSingle(acc: seq<Item>, e: Event)
    ensures Collect(acc, [e]) == CollectOne(acc, e)
  {
    assert Init([e]) == [];
  }

  // ----- Header lines -----

  lemma NextLine(item: Item, k: nat, boundary: string, rest: string)
    requires PlainItem(item) && k < |Lines(item)|
    ensures EntryText(item, k, boundary, rest) == Lines(item)[k] + CRLF + EntryText(item, k + 1, boundary, rest)
    ensures FirstAt(EntryText(item, k, boundary, rest), CRLF, |Lines(item)[k]|)
    ensures 0 < |Lines(item)[k]|
  {
    hide DispositionLine, TypeLine, PlainItem;
    var line, more := Lines(item)[k], EntryText(item, k + 1, boundary, rest);
    assert Lines(item)[k..][1..] == Lines(item)[k + 1..];
    LineIsPlain(item, k);
    FreeWithoutFirst(line, CRLF);
    DelimiterIsFirst(line, CRLF, more);
  }

  /** Where the first line end is seen, given what has arrived of the text. */
  lemma SeenInBuffer(t: string, buf: string, rest: string, d: string, k: nat)
    requires d != "" && FirstAt(t, d, k) && buf + rest == t
    ensures Find(buf, d) == if k + |d| <= |buf| then k else |buf|
    ensures Find(buf, d) == |buf| ==> |rest| > |t| - k - |d|
    ensures k + |d| <= |buf| ==> buf[k + |d|..] + rest == t[k + |d|..] && buf[..k] == t[..k]
  {
    assert t[..|buf|] == buf;
    FindInPrefix(t, d, k, |buf|);
  }

  lemma EntryIsText(item: Item, k: nat, boundary: string, rest: string)
    requires k <= |Lines(item)|
    ensures |EntryText(item, k, boundary, rest)| > 2
  {
  }

  lemma {:induction false} HeaderLinesOnTrack(boundary: string, items: seq<Item>, p: Parser, rest: string,
                                              acc: seq<Item>, k: nat)
    requires GoodItems(items, boundary) && AtHeaders(boundary, items, p, rest, acc, k)
    ensures GoodStep(boundary, items, HeaderLines(p), rest, acc)
    decreases |Lines(items[|acc|])| - k
  {
    hide GoodItems, FreeOf, IsHeaderLine, ReadLine, Tail, EntryText, Lines, PartAfter, Find, FirstAt;
    var item, after := items[|acc|], Tail(items[|acc| + 1..], boundary);
    GoodItem(items, boundary, |acc|);
    CollectNone(acc);
    if k < |Lines(item)| {
      var line := Lines(item)[k];
      NextLine(item, k, boundary, after);
      EntryIsText(item, k + 1, boundary, after);
      SeenInBuffer(p.buf + rest, p.buf, rest, CRLF, |line|);
      if |line| + 2 <= |p.buf| {
        ReadsBack(item, k);
        var q := p.(buf := p.buf[|line| + 2..], part := PartAfter(item, k + 1));
        assert (line + CRLF + EntryText(item, k + 1, boundary, after))[..|line|] == line;
        assert (line + CRLF + EntryText(item, k + 1, boundary, after))[|line| + 2..] ==
               EntryText(item, k + 1, boundary, after);
        HeaderLinesOnTrack(boundary, items, q, rest, acc, k + 1);
      }
    } else {
      EmptyLine(boundary, items, p, rest, acc, k);
    }
  }

  lemma GoodItem(items: seq<Item>, boundary: string, i: nat)
    requires GoodItems(items, boundary) && i < |items|
    ensures PlainItem(items[i]) && FreeOf(items[i].content, Delimiter(boundary))
    ensures forall k :: 0 <= k < |Lines(items[i])| ==> |Lines(items[i])[k]| < HEADER_MAX_LENGTH
  {
  }

  /** The empty line announces the entry and turns to its content. */
  lemma EmptyLine(boundary: string, items: seq<Item>, p: Parser, rest: string, acc: seq<Item>, k: nat)
    requires GoodItems(items, boundary) && AtHeaders(boundary, items, p, rest, acc, k) && k == |Lines(items[|acc|])|
    ensures GoodStep(boundary, items, HeaderLines(p), rest, acc)
  {
    hide FreeOf, ReadLine, Tail;
    var item, after := items[|acc|], Tail(items[|acc| + 1..], boundary);
    var t, content := p.buf + rest, ContentText(item.content, boundary, after);
    assert Lines(item)[k..] == [];
    assert t == CRLF + content;
    EmptyLineFirst(content);
    SeenInBuffer(t, p.buf, rest, CRLF, 0);
    CollectNone(acc);
    if 2 <= |p.buf| {
      CollectSingle(acc, Header(p.part));
      var q, acc' := p.(buf := p.buf[2..], phase := Body), acc + [Empty(item)];
      assert Init(acc') == acc && Last(acc') == Empty(item);
      assert items[..|acc'| - 1] == acc;
      assert t[2..] == content;
      assert AtBody(boundary, items, q, rest, acc', item.content);
    }
  }

  lemma EmptyLineFirst(z: string)
    ensures FirstAt(CRLF + z, CRLF, 0)
  {
  }

  // ----- Content -----

  lemma DelimiterForm(boundary: string)
    requires IsBoundary(boundary)
    ensures var d := Delimiter(boundary); |d| >= 4 && d[0] == '\r' && forall j :: 0 < j < |d| ==> d[j] != '\r'
  {
  }

  lemma BodyOnTrack(boundary: string, items: seq<Item>, p: Parser, rest: string, acc: seq<Item>, left: string)
    requires GoodItems(items, boundary) && AtBody(boundary, items, p, rest, acc, left)
    ensures GoodStep(boundary, items, BodyStep(boundary, p), rest, acc)
  {
    hide FreeOf, Tail, Find, FirstAt, PlainItem, AtEntry, AtHeaders, AtBoundary, AtEnd, Delimiter;
    var d, after := Delimiter(boundary), Tail(items[|acc|..], boundary);
    var t := p.buf + rest;
    DelimiterForm(boundary);
    DelimiterIsFirst(left, d, after);
    SeenInBuffer(t, p.buf, rest, d, |left|);
    CollectNone(acc);
    assert t[..|left|] == left && t[|left| + |d|..] == after;
    TailIsText(items[|acc|..], boundary);
    if |p.buf| < |d| {
      assert AtBody(boundary, items, p, rest, acc, left);
    } else if |left| + |d| <= |p.buf| {
      ContentEnds(boundary, items, p, rest, acc, left);
    } else if |p.buf| > |d| {
      ContentGoesOn(boundary, items, p, rest, acc, left, |p.buf| - |d|);
    } else {
      assert p.(buf := p.buf[0..]) == p;
      assert AtBody(boundary, items, p, rest, acc, left);
    }
  }

  lemma {:induction false} ContentEnds(boundary: string, items: seq<Item>, p: Parser, rest: string, acc: seq<Item>,
                                       left: string)
    requires AtBody(boundary, items, p, rest, acc, left) && |left| + |Delimiter(boundary)| <= |p.buf|
    requires (p.buf + rest)[|left| + |Delimiter(boundary)|..] == Tail(items[|acc|..], boundary)
    ensures var q := p.(buf := p.buf[|left| + |Delimiter(boundary)|..], phase := Boundary);
            OnTrack(boundary, items, q, rest, Collect(acc, [Content(left)]))
  {
    hide FreeOf, Tail;
    CollectSingle(acc, Content(left));
    var acc' := Collect(acc, [Content(left)]);
    assert acc' == Init(acc) + [items[|acc| - 1]] == items[..|acc|];
    var q := p.(buf := p.buf[|left| + |Delimiter(boundary)|..], phase := Boundary);
    assert q.buf + rest == (p.buf + rest)[|left| + |Delimiter(boundary)|..];
    assert AtBoundary(boundary, items, q, rest, acc');
  }

  lemma ContentGoesOn(boundary: string, items: seq<Item>, p: Parser, rest: string, acc: seq<Item>, left: string, n: nat)
    requires AtBody(boundary, items, p, rest, acc, left) && n <= |left| && n <= |p.buf|
    ensures OnTrack(boundary, items, p.(buf := p.buf[n..]), rest, Collect(acc, [Content(p.buf[..n])]))
  {
    hide FreeOf, Tail;
    var t, q := p.buf + rest, p.(buf := p.buf[n..]);
    assert p.buf[..n] == t[..n] == left[..n];
    assert q.buf + rest == t[n..] == ContentText(left[n..], boundary, Tail(items[|acc|..], boundary));
    FreeSuffix(left, Delimiter(boundary), n);
    CollectSingle(acc, Content(left[..n]));
    var acc' := Collect(acc, [Content(left[..n])]);
    var last := Last(acc).(content := Last(acc).content + left[..n]);
    assert acc' == Init(acc) + [last] && Init(acc') == Init(acc) && Last(acc') == last;
    assert Last(acc).content + left[..n] + left[n..] == Last(acc).content + left;
    assert AtBody(boundary, items, q, rest, acc', left[n..]);
  }

  // ----- Behind a boundary -----

  lemma BoundaryOnTrack(boundary: string, items: seq<Item>, p: Parser, rest: string, acc: seq<Item>)
    requires AtBoundary(boundary, items, p, rest, acc)
    ensures GoodStep(boundary, items, BoundaryStep(p), rest, acc)
  {
    hide EntryText;
    var n, t := |acc|, p.buf + rest;
    CollectNone(acc);
    if n == |items| {
      assert items[n..] == [] && items[..n] == items;
      assert t == DASH + CRLF && |t| == 4;
      assert t[..|p.buf|] == p.buf;
      if |p.buf| >= 2 {
        assert p.buf[0..2] == t[0..2] == DASH;
        assert rest == t[|p.buf|..];
        assert AtEnd(items, p.(buf := "", valid := true), rest, acc);
      }
    } else {
      assert items[n..][1..] == items[n + 1..] && items[n..][0] == items[n];
      var entry := EntryText(items[n], 0, boundary, Tail(items[n + 1..], boundary));
      assert t == CRLF + entry;
      EntryIsText(items[n], 0, boundary, Tail(items[n + 1..], boundary));
      if |p.buf| >= 2 {
        assert p.buf[0..2] == t[0..2] == CRLF;
        assert p.buf[2..] + rest == t[2..] == entry;
        assert AtEntry(boundary, items, p.(buf := p.buf[2..], phase := NewEntry), rest, acc);
      }
    }
  }

  lemma EndOnTrack(boundary: string, items: seq<Item>, p: Parser, rest: string, acc: seq<Item>)
    requires AtEnd(items, p, rest, acc) && p.buf != ""
    ensures GoodStep(boundary, items, StepOf(boundary, p), rest, acc)
  {
    hide Collect, AtEntry, AtHeaders, AtBody, AtBoundary, Tail, EntryText, HeaderLines, BodyStep, OpeningStep;
    CollectNone(acc);
    var t := p.buf + rest;
    if |p.buf| == 2 {
      assert rest == "" && t == p.buf;
      assert p.buf[0..2] == CRLF;
      assert AtEnd(items, p.(buf := p.buf[2..], phase := NewEntry), rest, acc);
    }
  }

  // ----- Whole calls -----

  lemma StepOnTrack(boundary: string, items: seq<Item>, p: Parser, rest: string, acc: seq<Item>)
    requires GoodItems(items, boundary) && OnTrack(boundary, items, p, rest, acc) && p.buf != ""
    ensures GoodStep(boundary, items, StepOf(boundary, p), rest, acc)
  {
    hide AtEntry, AtHeaders, AtBody, AtBoundary, AtEnd, HeaderLines, BodyStep, BoundaryStep, GoodStep, GoodItems;
    if AtEntry(boundary, items, p, rest, acc) {
      EntryOnTrack(boundary, items, p, rest, acc);
    } else if AtBoundary(boundary, items, p, rest, acc) {
      PhaseAtBoundary(boundary, items, p, rest, acc);
      BoundaryOnTrack(boundary, items, p, rest, acc);
    } else if AtEnd(items, p, rest, acc) {
      EndOnTrack(boundary, items, p, rest, acc);
    } else if k: nat :| AtHeaders(boundary, items, p, rest, acc, k) {
      LengthInRange(boundary, items, p, rest, acc, k);
      HeaderLinesOnTrack(boundary, items, p, rest, acc, k);
    } else {
      var left :| AtBody(boundary, items, p, rest, acc, left);
      PhaseAtBody(boundary, items, p, rest, acc, left);
      BodyOnTrack(boundary, items, p, rest, acc, left);
    }
  }

  lemma PhaseAtBody(boundary: string, items: seq<Item>, p: Parser, rest: string, acc: seq<Item>, left: string)
    requires AtBody(boundary, items, p, rest, acc, left)
    ensures p.phase == Body
  {
  }

  lemma PhaseAtBoundary(boundary: string, items: seq<Item>, p: Parser, rest: string, acc: seq<Item>)
    requires AtBoundary(boundary, items, p, rest, acc)
    ensures p.phase == Boundary
  {
  }

  lemma EntryOnTrack(boundary: string, items: seq<Item>, p: Parser, rest: string, acc: seq<Item>)
    requires AtEntry(boundary, items, p, rest, acc)
    ensures GoodStep(boundary, items, StepOf(boundary, p), rest, acc)
  {
    hide EntryText, Tail;
    CollectNone(acc);
    assert AtHeaders(boundary, items, p.(part := NO_PART, phase := Headers), rest, acc, 0);
  }

  /** A plain header line never trips the length check, however it arrives. */
  lemma LengthInRange(boundary: string, items: seq<Item>, p: Parser, rest: string, acc: seq<Item>, k: nat)
    requires GoodItems(items, boundary) && AtHeaders(boundary, items, p, rest, acc, k)
    ensures p.phase == Headers && Find(p.buf, CRLF) <= HEADER_MAX_LENGTH
  {
    hide FreeOf, Tail, EntryText, Lines, PartAfter, Find, FirstAt;
    var item, after := items[|acc|], Tail(items[|acc| + 1..], boundary);
    GoodItem(items, boundary, |acc|);
    if k < |Lines(item)| {
      NextLine(item, k, boundary, after);
      SeenInBuffer(p.buf + rest, p.buf, rest, CRLF, |Lines(item)[k]|);
    } else {
      LastLineText(item, boundary, after);
      EmptyLineFirst(ContentText(item.content, boundary, after));
      SeenInBuffer(p.buf + rest, p.buf, rest, CRLF, 0);
    }
  }

  lemma LastLineText(item: Item, boundary: string, after: string)
    ensures EntryText(item, |Lines(item)|, boundary, after) == CRLF + ContentText(item.content, boundary, after)
  {
    assert Lines(item)[|Lines(item)|..] == [];
  }

  lemma {:induction false} RunOnTrack(boundary: string, items: seq<Item>, p: Parser, rest: string, acc: seq<Item>)
    requires GoodItems(items, boundary) && OnTrack(boundary, items, p, rest, acc)
    ensures var r := Run(boundary, p); r.ok && Fine(boundary, items, r.parser, rest, Collect(acc, r.events))
    decreases |p.buf|, Rank(p.phase)
  {
    hide GoodItems, OnTrack, AtEnd, StepOf;
    CollectNone(acc);
    if p.buf == "" {
      NothingLeft(boundary, items, p, rest, acc);
    } else {
      StepOnTrack(boundary, items, p, rest, acc);
      match StepOf(boundary, p)
      case Stop(_, _, _) =>
      case More(q, events) =>
        StepShrinks(boundary, p);
        RunOnTrack(boundary, items, q, rest, Collect(acc, events));
        CollectConcat(acc, events, Run(boundary, q).events);
    }
  }

  lemma NothingLeft(boundary: string, items: seq<Item>, p: Parser, rest: string, acc: seq<Item>)
    requires OnTrack(boundary, items, p, rest, acc) && p.buf == ""
    ensures |rest| <= 2 ==> AtEnd(items, p, rest, acc)
  {
    assert p.buf + rest == rest;
    forall i | 0 <= i <= |items|
      ensures |Tail(items[i..], boundary)| > 2
    {
      TailIsText(items[i..], boundary);
    }
  }

  lemma TailIsText(items: seq<Item>, boundary: string)
    ensures |Tail(items, boundary)| > 2
  {
  }

  // ----- Piece by piece -----

  function Join(pieces: seq<string>): string {
    if pieces == [] then "" else Join(Init(pieces)) + Last(pieces)
  }

  lemma OpeningOnTrack(boundary: string, items: seq<Item>, piece: string, rest: string)
    requires GoodItems(items, boundary) && piece + rest == Serialize(items, boundary, true)
    requires |piece| >= |OpeningLine(boundary)|
    ensures var r := Feed(boundary, FRESH, piece); r.ok && Fine(boundary, items, r.parser, rest, Collect([], r.events))
  {
    hide GoodItems, EntryText, OnTrack, AtEnd, AtEntry, StepOf, OpeningLine, Tail;
    SerializedForm(items, boundary);
    NotEmpty(items, boundary);
    var entry := EntryText(items[0], 0, boundary, Tail(items[1..], boundary));
    TextStart(items, boundary);
    var q := Parser(NewEntry, piece[|OpeningLine(boundary)|..], NO_PART, false);
    OpeningFound(boundary, piece, rest, entry);
    StartsAtEntry(boundary, items, q, rest, entry);
    RunOnTrack(boundary, items, q, rest, []);
    assert [] + Run(boundary, q).events == Run(boundary, q).events;
  }

  lemma TextStart(items: seq<Item>, boundary: string)
    requires items != []
    ensures DASH + boundary + Tail(items, boundary) ==
            OpeningLine(boundary) + EntryText(items[0], 0, boundary, Tail(items[1..], boundary))
  {
    hide EntryText;
    var entry := EntryText(items[0], 0, boundary, Tail(items[1..], boundary));
    assert DASH + boundary + (CRLF + entry) == DASH + boundary + CRLF + entry;
  }

  lemma StartsAtEntry(boundary: string, items: seq<Item>, q: Parser, rest: string, entry: string)
    requires items != [] && entry == EntryText(items[0], 0, boundary, Tail(items[1..], boundary))
    requires q.phase == NewEntry && !q.valid && q.buf + rest == entry
    ensures OnTrack(boundary, items, q, rest, [])
  {
    hide EntryText, Tail;
    assert items[..0] == [];
    assert AtEntry(boundary, items, q, rest, []);
  }

  lemma OpeningFound(boundary: string, piece: string, rest: string, entry: string)
    requires piece + rest == OpeningLine(boundary) + entry && |piece| >= |OpeningLine(boundary)|
    ensures piece[|OpeningLine(boundary)|..] + rest == entry
    ensures var q := Parser(NewEntry, piece[|OpeningLine(boundary)|..], NO_PART, false);
            var r := Run(boundary, q);
            Feed(boundary, FRESH, piece) == Result(r.parser, [] + r.events, r.ok)
  {
    var o, t := OpeningLine(boundary), piece + rest;
    assert piece[0..|o|] == t[0..|o|] == o;
    assert piece[|o|..] + rest == t[|o|..];
    FindIs(piece, o, 0);
    assert "" + piece == piece && piece[0..] == piece;
    var p := Parser(Opening, piece, NO_PART, false);
    var q := Parser(NewEntry, piece[|o|..], NO_PART, false);
    assert StepOf(boundary, p) == More(q, []);
  }

  lemma NotEmpty(items: seq<Item>, boundary: string)
    requires GoodItems(items, boundary)
    ensures items != []
  {
  }

  lemma {:induction false} FeedAllOnTrack(boundary: string, items: seq<Item>, pieces: seq<string>, rest: string)
    requires GoodItems(items, boundary) && Join(pieces) + rest == Serialize(items, boundary, true)
    requires pieces != [] && |pieces[0]| >= |OpeningLine(boundary)|
    ensures var r := FeedAll(boundary, FRESH, pieces);
            r.ok && Fine(boundary, items, r.parser, rest, Collect([], r.events))
    decreases |pieces|
  {
    hide GoodItems, OnTrack, AtEnd, Run, Serialize;
    var before, last := Init(pieces), Last(pieces);
    if before == [] {
      assert Join(pieces) == last;
      assert [] + Feed(boundary, FRESH, last).events == Feed(boundary, FRESH, last).events;
      OpeningOnTrack(boundary, items, last, rest);
    } else {
      assert Join(before) + (last + rest) == Join(pieces) + rest;
      FeedAllOnTrack(boundary, items, before, last + rest);
      var r := FeedAll(boundary, FRESH, before);
      var p := r.parser.(buf := r.parser.buf + last);
      ArrivedOnTrack(boundary, items, r.parser, last, rest, Collect([], r.events));
      RunOnTrack(boundary, items, p, rest, Collect([], r.events));
      CollectConcat([], r.events, Run(boundary, p).events);
    }
  }

  /** Moving bytes from what is to come into the buffer changes nothing. */
  lemma ArrivedOnTrack(boundary: string, items: seq<Item>, p: Parser, last: string, rest: string, acc: seq<Item>)
    requires OnTrack(boundary, items, p, last + rest, acc)
    ensures OnTrack(boundary, items, p.(buf := p.buf + last), rest, acc)
  {
    hide EntryText, Tail, FreeOf;
    var q := p.(buf := p.buf + last);
    assert q.buf + rest == p.buf + (last + rest);
    if k: nat :| AtHeaders(boundary, items, p, last + rest, acc, k) {
      assert AtHeaders(boundary, items, q, rest, acc, k);
    } else if left :| AtBody(boundary, items, p, last + rest, acc, left) {
      assert AtBody(boundary, items, q, rest, acc, left);
    }
  }

  /** The first bytes that arrive, empty pieces aside. */
  function FirstBytes(pieces: seq<string>): string {
    if pieces == [] then "" else if pieces[0] != "" then pieces[0] else FirstBytes(pieces[1..])
  }

  /** Empty pieces in front change nothing. */
  lemma {:induction false} EmptyPieceSkipped(boundary: string, pieces: seq<string>)
    requires pieces != [] && pieces[0] == ""
    ensures FeedAll(boundary, FRESH, pieces) == FeedAll(boundary, FRESH, pieces[1..])
    ensures Join(pieces) == Join(pieces[1..])
    decreases |pieces|
  {
    var before := Init(pieces);
    if before == [] {
      assert pieces[1..] == [];
      assert FRESH.(buf := FRESH.buf + "") == FRESH;
    } else {
      assert Init(pieces[1..]) == before[1..] && Last(pieces[1..]) == Last(pieces);
      EmptyPieceSkipped(boundary, before);
    }
  }

  /** The text of the entries, cut into pieces in any way. */
  ghost predicate Arrives(pieces: seq<string>, items: seq<Item>, boundary: string) {
    Join(pieces) == Serialize(items, boundary, true)
  }

  ghost predicate RoundTrips(pieces: seq<string>, items: seq<Item>, boundary: string) {
    var r := FeedAll(boundary, FRESH, pieces); r.ok && r.parser.valid && Collect([], r.events) == items
  }

  /** What the serializer writes is read back exactly, in whatever pieces it arrives, as long as the first
      bytes to arrive are at least the whole opening boundary line. */
  lemma {:induction false} MultipartRoundTrip(items: seq<Item>, boundary: string, pieces: seq<string>)
    requires GoodItems(items, boundary) && Arrives(pieces, items, boundary)
    requires |FirstBytes(pieces)| >= |OpeningLine(boundary)|
    ensures RoundTrips(pieces, items, boundary)
    decreases |pieces|
  {
    hide GoodItems, Serialize;
    if pieces[0] == "" {
      EmptyPieceSkipped(boundary, pieces);
      MultipartRoundTrip(items, boundary, pieces[1..]);
    } else {
      assert Join(pieces) + "" == Join(pieces);
      FeedAllOnTrack(boundary, items, pieces, "");
    }
  }
}
