/** What the server makes of a multipart body: the parser's calls fill a multimap of form entries by name. */
module FormFiles {
  import opened Lists
  import opened HttpText
  import opened Multimaps
  import opened Multipart
  import opened MultipartParser
  import opened MultipartEnds
  import opened MultipartRoundTrip

  const FILE_MAX_COUNT := 1024

  // ----- Entries by name -----

  function ByName(items: seq<Item>): Multimap<Item> {
    if items == [] then [] else Emplace(ByName(Init(items)), Last(items).name, Last(items))
  }

  /** The entries with a name, in the order of the body. */
  function Named(items: seq<Item>, name: string): seq<Item> {
    if items == [] then [] else Named(Init(items), name) + if Last(items).name == name then [Last(items)] else []
  }

  /** The multimap is ordered by name, and entries with the same name keep the order of the body. */
  lemma {:induction false} ByNameKeepsOrder(items: seq<Item>, name: string)
    ensures Sorted(ByName(items)) && ValuesOf(ByName(items), name) == Named(items, name)
  {
    if items == [] {
    } else {
      ByNameKeepsOrder(Init(items), name);
      EmplaceKeepsSorted(ByName(Init(items)), Last(items).name, Last(items));
      EmplacedLast(ByName(Init(items)), Last(items).name, Last(items), name);
    }
  }

  // ----- The parser's calls -----

  /** Content comes only after the headers of an entry. */
  predicate Opens(items: seq<Item>, events: seq<Event>) {
    items != [] || events == [] || events[0].Header?
  }

  predicate Opened(p: Parser, items: seq<Item>) {
    p.phase == Body ==> items != []
  }

  lemma {:induction false} HeaderLinesOpen(p: Parser)
    requires p.phase == Headers
    ensures var s := HeaderLines(p);
            if s.More? then |s.events| == 1 && s.events[0].Header? else s.events == [] && s.parser.phase == Headers
    decreases |p.buf|
  {
    hide ReadLine, Find;
    var pos := Find(p.buf, CRLF);
    FindFirst(p.buf, CRLF);
    if pos == |p.buf| || pos == 0 {
    } else if ReadLine(p.part, p.buf[..pos]).ok {
      HeaderLinesOpen(p.(buf := p.buf[pos + 2..], part := ReadLine(p.part, p.buf[..pos]).part));
    }
  }

  lemma {:induction false} CollectLength(acc: seq<Item>, events: seq<Event>)
    ensures |Collect(acc, events)| >= |acc|
    decreases |events|
  {
    if events == [] {
    } else {
      CollectLength(acc, Init(events));
    }
  }

  lemma StepOpens(boundary: string, p: Parser, items: seq<Item>)
    requires Opened(p, items)
    ensures var s := StepOf(boundary, p); Opens(items, s.events) && Opened(s.parser, Collect(items, s.events))
  {
    hide HeaderLines, Find;
    var s := StepOf(boundary, p);
    if p.phase == Headers {
      HeaderLinesOpen(p);
    }
    CollectLength(items, s.events);
    if |s.events| == 1 {
      assert Init(s.events) == [] && Collect(items, Init(s.events)) == items;
    }
  }

  lemma {:induction false} RunOpens(boundary: string, p: Parser, items: seq<Item>)
    requires Opened(p, items)
    ensures var r := Run(boundary, p); Opens(items, r.events) && Opened(r.parser, Collect(items, r.events))
    decreases |p.buf|, Rank(p.phase)
  {
    hide StepOf;
    if p.buf == "" {
    } else {
      StepOpens(boundary, p, items);
      match StepOf(boundary, p)
      case Stop(_, _, _) =>
      case More(q, events) =>
        StepShrinks(boundary, p);
        RunOpens(boundary, q, Collect(items, events));
        CollectConcat(items, events, Run(boundary, q).events);
        assert events == [] ==> Collect(items, events) == items;
    }
  }

  // ----- The request's files -----

  class Files {
    var files: Multimap<Item>
    /** Where the entry being filled is. */
    var cur: nat
    var fileCount: nat
    /** The entries in the order of the body. */
    ghost var items: seq<Item>

    ghost predicate Valid()
      reads this
    {
      && files == ByName(items) && fileCount == |items| <= FILE_MAX_COUNT
      && (items != [] ==> cur == Slot(ByName(Init(items)), Last(items).name))
    }

    constructor ()
      ensures Valid() && items == []
    {
      files, cur, fileCount, items := [], 0, 0, [];
    }

    /** The headers of an entry: refused if there are too many entries. */
    method Header(part: Part) returns (ok: bool)
      requires Valid()
      modifies this
      ensures ok == (|old(items)| < FILE_MAX_COUNT)
      ensures ok ==> Valid() && items == CollectOne(old(items), Event.Header(part))
    {
      fileCount := fileCount + 1;
      if fileCount - 1 == FILE_MAX_COUNT {
        return false;
      }
      var file := Item(part.name, "", part.filename, part.contentType);
      cur := Slot(files, file.name);
      files := Emplace(files, file.name, file);
      items := items + [file];
      assert Init(items) == old(items);
      return true;
    }

    method Content(bytes: string)
      requires Valid() && items != []
      modifies this`files, this`items
      ensures Valid() && items == CollectOne(old(items), Event.Content(bytes))
    {
      ghost var before, last := ByName(Init(items)), Last(items);
      EmplaceAtSlot(before, last.name, last);
      assert files[cur] == (last.name, last);
      var file := files[cur].1;
      files := files[cur := (files[cur].0, file.(content := file.content + bytes))];
      items := Init(items) + [last.(content := last.content + bytes)];
      assert Init(items) == Init(old(items));
      EmplaceAtSlot(before, last.name, Last(items));
    }

    /** The calls of one piece of the body, until one is refused. */
    method Receive(events: seq<Event>) returns (ok: bool)
      requires Valid() && Opens(items, events)
      modifies this
      ensures ok == (|Collect(old(items), events)| <= FILE_MAX_COUNT)
      ensures ok ==> Valid() && items == Collect(old(items), events)
    {
      assert events[..0] == [];
      for i := 0 to |events|
        invariant Valid() && items == Collect(old(items), events[..i])
        invariant i > 0 ==> items != []
      {
        ghost var before := items;
        assert Init(events[..i + 1]) == events[..i] && Last(events[..i + 1]) == events[i];
        match events[i]
        case Header(part) =>
          ok := Header(part);
          if !ok {
            assert events == events[..i + 1] + events[i + 1..];
            CollectConcat(old(items), events[..i + 1], events[i + 1..]);
            CollectLength(CollectOne(before, events[i]), events[i + 1..]);
            return false;
          }
        case Content(bytes) => Content(bytes);
      }
      assert events[..|events|] == events;
      return true;
    }
  }

  // ----- A whole body -----

  /** The form that a body gives, if it is accepted. */
  function FormOf(boundary: string, pieces: seq<string>): Option<Multimap<Item>> {
    var r := FeedAll(boundary, FRESH, pieces);
    var items := Collect([], r.events);
    if r.ok && r.parser.valid && |items| <= FILE_MAX_COUNT then Some(ByName(items)) else None
  }

  /** Later pieces only add to what the first ones gave, and nothing follows a failure. */
  lemma {:induction false} FeedAllFirst(boundary: string, pieces: seq<string>, i: nat)
    requires i <= |pieces|
    ensures var a, b := FeedAll(boundary, FRESH, pieces[..i]), FeedAll(boundary, FRESH, pieces);
            (!a.ok ==> b == a) && a.events <= b.events
    decreases |pieces|
  {
    if i == |pieces| {
      assert pieces[..i] == pieces;
    } else {
      assert Init(pieces)[..i] == pieces[..i];
      FeedAllFirst(boundary, Init(pieces), i);
    }
  }

  lemma TooManyStay(boundary: string, pieces: seq<string>, i: nat)
    requires i <= |pieces| && |Collect([], FeedAll(boundary, FRESH, pieces[..i]).events)| > FILE_MAX_COUNT
    ensures FormOf(boundary, pieces) == None
  {
    var a, b := FeedAll(boundary, FRESH, pieces[..i]).events, FeedAll(boundary, FRESH, pieces).events;
    FeedAllFirst(boundary, pieces, i);
    assert b == a + b[|a|..];
    CollectConcat([], a, b[|a|..]);
    CollectLength(Collect([], a), b[|a|..]);
  }

  lemma NextPiece(boundary: string, pieces: seq<string>, i: nat, p: Parser, items: seq<Item>)
    requires i < |pieces|
    requires var r := FeedAll(boundary, FRESH, pieces[..i]); r.ok && r.parser == p && Collect([], r.events) == items
    ensures var r, s := Feed(boundary, p, pieces[i]), FeedAll(boundary, FRESH, pieces[..i + 1]);
            s.ok == r.ok && s.parser == r.parser && Collect([], s.events) == Collect(items, r.events)
  {
    hide Feed;
    assert Init(pieces[..i + 1]) == pieces[..i] && Last(pieces[..i + 1]) == pieces[i];
    CollectConcat([], FeedAll(boundary, FRESH, pieces[..i]).events, Feed(boundary, p, pieces[i]).events);
  }

  lemma NoPieces(boundary: string, pieces: seq<string>)
    ensures FeedAll(boundary, FRESH, pieces[..0]) == Result(FRESH, [], true) && Opened(FRESH, [])
            && pieces[..|pieces|] == pieces
  {
  }

  method ReadForm(boundary: string, pieces: seq<string>) returns (form: Option<Multimap<Item>>)
    ensures form == FormOf(boundary, pieces)
  {
    NoPieces(boundary, pieces);
    hide Feed, FeedAll, Opened, Opens, ByName;
    var parser := new MultipartFormDataParser(boundary);
    var req := new Files();
    for i := 0 to |pieces|
      invariant parser.Valid() && fresh(parser) && fresh(parser.buf) && parser.boundary == boundary
      invariant req.Valid() && fresh(req) && Opened(parser.View(), req.items)
      invariant var r := FeedAll(boundary, FRESH, pieces[..i]);
                r.ok && r.parser == parser.View() && Collect([], r.events) == req.items
    {
      NextPiece(boundary, pieces, i, parser.View(), req.items);
      FeedOpens(boundary, parser.View(), pieces[i], req.items);
      var ok, events := parser.Parse(pieces[i]);
      var accepted := req.Receive(events);
      if !accepted {
        TooManyStay(boundary, pieces, i + 1);
        return None;
      }
      if !ok {
        FeedAllFirst(boundary, pieces, i + 1);
        return None;
      }
    }
    if !parser.isValid {
      return None;
    }
    return Some(req.files);
  }

  lemma FeedOpens(boundary: string, p: Parser, piece: string, items: seq<Item>)
    requires Opened(p, items)
    ensures var r := Feed(boundary, p, piece); Opens(items, r.events) && Opened(r.parser, Collect(items, r.events))
  {
    RunOpens(boundary, p.(buf := p.buf + piece), items);
  }

  /** Serialized entries come back, whatever the pieces, as the form that holds them by name, exactly if all but the
      last line end has arrived and there are no more of them than the server takes. */
  lemma FormRoundTrip(items: seq<Item>, boundary: string, pieces: seq<string>, missing: string)
    requires GoodItems(items, boundary) && Join(pieces) + missing == Serialize(items, boundary, true)
    requires |FirstBytes(pieces)| >= |OpeningLine(boundary)|
    ensures FormOf(boundary, pieces) ==
            if |missing| <= 2 && |items| <= 1024 then Some(ByName(items)) else None
  {
    hide GoodItems, Serialize, ByName;
    CompleteIffEndArrived(items, boundary, pieces, missing);
  }
}
