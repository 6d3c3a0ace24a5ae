/** The incremental multipart/form-data parser as a function of its buffer, and the serializer. */
module Multipart {
  import opened HeaderFields
  import opened Lists
  import opened HttpText
  import Query

  const HEADER_MAX_LENGTH := 8192

  datatype Phase = Opening | NewEntry | Headers | Body | Boundary

  datatype Part = Part(name: string, filename: string, contentType: string)

  /** The calls the parser makes: one for each entry's headers, then any number for its content. */
  datatype Event = Header(part: Part) | Content(bytes: string)

  datatype Parser = Parser(phase: Phase, buf: string, part: Part, valid: bool)

  const NO_PART := Part("", "", "")
  const FRESH := Parser(Opening, "", NO_PART, false)

  function OpeningLine(boundary: string): string { DASH + boundary + CRLF }

  function Delimiter(boundary: string): string { CRLF + DASH + boundary }

  // ----- Header lines -----

  const CONTENT_TYPE := "Content-Type:"
  const DISPOSITION := "Content-Disposition:"
  const FORM_DATA := "form-data;"
  const UTF_8 := "UTF-8''"

  /** The parameters of a form-data disposition line. Only blanks can stand where the pattern allows white
      space, because the line has passed as a header line. */
  function DispositionParams(line: string): Option<string> {
    if !StartsWithNoCase(line, DISPOSITION) then None
    else
      var value := TrimLeft(line[|DISPOSITION|..]);
      if !StartsWithNoCase(value, FORM_DATA) then None else Some(TrimLeft(value[|FORM_DATA|..]))
  }

  function KeyAndValue(parts: seq<string>): (string, string) {
    (Unquote(if parts == [] then "" else parts[0]), Unquote(if |parts| < 2 then "" else Last(parts)))
  }

  /** The parameters in order; a text that has occurred before, or has no key, is skipped. */
  function ParamsOf(texts: seq<string>): seq<(string, string)> {
    if texts == [] then []
    else
      var before, kv := ParamsOf(Init(texts)), Last(texts);
      if kv in Init(texts) || Pieces(kv, '=') == [] then before else before + [KeyAndValue(Pieces(kv, '='))]
  }

  function Lookup(params: seq<(string, string)>, key: string): Option<string> {
    if params == [] then None
    else if params[0].0 == key then Some(params[0].1)
    else Lookup(params[1..], key)
  }

  datatype LineResult = LineResult(part: Part, ok: bool)

  function WithFilename(part: Part, params: seq<(string, string)>): LineResult {
    var p := match Lookup(params, "filename") case Some(f) => part.(filename := f) case None => part;
    match Lookup(params, "filename*")
    case None => LineResult(p, true)
    case Some(f) =>
      if StartsWithNoCase(f, UTF_8) && |f| > |UTF_8|
         then LineResult(p.(filename := Query.Decode(f[|UTF_8|..], false)), true)
      else LineResult(p, false)
  }

  /** What one header line does to the entry being read. */
  function ReadLine(part: Part, line: string): LineResult {
    if !IsHeaderLine(line) then LineResult(part, false)
    else if StartsWithNoCase(line, CONTENT_TYPE)
            then LineResult(part.(contentType := Trim(line[|CONTENT_TYPE|..])), true)
    else
      match DispositionParams(line)
      case None => LineResult(part, true)
      case Some(text) =>
        var params := ParamsOf(Pieces(text, ';'));
        match Lookup(params, "name")
        case None => LineResult(part, false)
        case Some(name) => WithFilename(part.(name := name), params)
  }

  // ----- The state loop -----

  /** The loop goes round again, or parse returns. */
  datatype Step = More(parser: Parser, events: seq<Event>) | Stop(parser: Parser, events: seq<Event>, ok: bool)

  /** Entry headers line by line, up to the empty line. */
  function HeaderLines(p: Parser): Step
    decreases |p.buf|
  {
    var pos := Find(p.buf, CRLF);
    FindFirst(p.buf, CRLF);
    if pos == |p.buf| then Stop(p, [], true)
    else if pos == 0 then More(p.(buf := p.buf[2..], phase := Body), [Header(p.part)])
    else
      var r := ReadLine(p.part, p.buf[..pos]);
      if r.ok then HeaderLines(p.(buf := p.buf[pos + 2..], part := r.part))
      else Stop(p.(part := r.part, valid := false), [], false)
  }

  function OpeningStep(boundary: string, p: Parser): Step {
    FindFirst(p.buf, OpeningLine(boundary));
    var q := p.(buf := p.buf[Find(p.buf, OpeningLine(boundary))..]);
    if |q.buf| < |OpeningLine(boundary)| then Stop(q, [], true)
    else if !At(q.buf, 0, OpeningLine(boundary)) then Stop(q, [], false)
    else More(q.(buf := q.buf[|OpeningLine(boundary)|..], phase := NewEntry), [])
  }

  function BodyStep(boundary: string, p: Parser): Step {
    var d := Delimiter(boundary);
    FindFirst(p.buf, d);
    var pos := Find(p.buf, d);
    if |p.buf| < |d| then Stop(p, [], true)
    else if pos < |p.buf| then More(p.(buf := p.buf[pos + |d|..], phase := Boundary), [Content(p.buf[..pos])])
    else
      var len := |p.buf| - |d|;
      Stop(p.(buf := p.buf[len..]), if len > 0 then [Content(p.buf[..len])] else [], true)
  }

  function BoundaryStep(p: Parser): Step {
    if |p.buf| < 2 then Stop(p, [], true)
    else if At(p.buf, 0, CRLF) then More(p.(buf := p.buf[2..], phase := NewEntry), [])
    else if At(p.buf, 0, DASH) then More(p.(buf := "", valid := true), [])
    else Stop(p, [], true)
  }

  function StepOf(boundary: string, p: Parser): Step {
    match p.phase
    case Opening => OpeningStep(boundary, p)
    case NewEntry => More(p.(part := NO_PART, phase := Headers), [])
    case Headers =>
      if Find(p.buf, CRLF) > HEADER_MAX_LENGTH then Stop(p, [], false) else HeaderLines(p)
    case Body => BodyStep(boundary, p)
    case Boundary => BoundaryStep(p)
  }

  function Rank(p: Phase): nat {
    if p == NewEntry then 1 else 0
  }

  lemma {:induction false} HeaderLinesShrink(p: Parser)
    ensures HeaderLines(p).More? ==> |HeaderLines(p).parser.buf| < |p.buf|
    decreases |p.buf|
  {
    var pos := Find(p.buf, CRLF);
    FindFirst(p.buf, CRLF);
    if pos == 0 || pos == |p.buf| || !ReadLine(p.part, p.buf[..pos]).ok {
    } else {
      HeaderLinesShrink(p.(buf := p.buf[pos + 2..], part := ReadLine(p.part, p.buf[..pos]).part));
    }
  }

  /** Every round of the loop takes bytes off the buffer, or turns to reading headers. */
  lemma StepShrinks(boundary: string, p: Parser)
    requires p.buf != "" && StepOf(boundary, p).More?
    ensures var q := StepOf(boundary, p).parser;
            |q.buf| < |p.buf| || (|q.buf| == |p.buf| && Rank(q.phase) < Rank(p.phase))
  {
    match p.phase
    case Headers => HeaderLinesShrink(p);
    case Opening => FindFirst(p.buf, OpeningLine(boundary));
    case Body => FindFirst(p.buf, Delimiter(boundary));
    case Boundary =>
    case NewEntry =>
  }

  datatype Result = Result(parser: Parser, events: seq<Event>, ok: bool)

  /** One call of parse, on a buffer that already ends with the new bytes. */
  function Run(boundary: string, p: Parser): Result
    decreases |p.buf|, Rank(p.phase)
  {
    if p.buf == "" then Result(p, [], true)
    else
      match StepOf(boundary, p)
      case Stop(q, events, ok) => Result(q, events, ok)
      case More(q, events) =>
        StepShrinks(boundary, p);
        var r := Run(boundary, q);
        Result(r.parser, events + r.events, r.ok)
  }

  function Feed(boundary: string, p: Parser, piece: string): Result {
    Run(boundary, p.(buf := p.buf + piece))
  }

  /** Feeding piece after piece until parse fails. */
  function FeedAll(boundary: string, p: Parser, pieces: seq<string>): Result {
    if pieces == [] then Result(p, [], true)
    else
      var r := FeedAll(boundary, p, Init(pieces));
      if !r.ok then r
      else
        var s := Feed(boundary, r.parser, Last(pieces));
        Result(s.parser, r.events + s.events, s.ok)
  }

  // ----- The serializer -----

  datatype Item = Item(name: string, content: string, filename: string, contentType: string)

  function DispositionLine(item: Item): string {
    "Content-Disposition: form-data; name=\"" + item.name + "\""
    + if item.filename != "" then "; filename=\"" + item.filename + "\"" else ""
  }

  function TypeLine(item: Item): string {
    "Content-Type: " + item.contentType
  }

  function ItemBegin(item: Item, boundary: string): string {
    DASH + boundary + CRLF + DispositionLine(item) + CRLF
    + (if item.contentType != "" then TypeLine(item) + CRLF else "") + CRLF
  }

  function ItemEnd(): string { CRLF }

  function Finish(boundary: string): string { DASH + boundary + DASH + CRLF }

  function SerializeItems(items: seq<Item>, boundary: string): string {
    if items == [] then ""
    else SerializeItems(Init(items), boundary) + ItemBegin(Last(items), boundary) + Last(items).content + ItemEnd()
  }

  function Serialize(items: seq<Item>, boundary: string, finish: bool): string {
    SerializeItems(items, boundary) + if finish then Finish(boundary) else ""
  }

  method SerializeMultipartFormdata(items: seq<Item>, boundary: string, finish: bool) returns (body: string)
    ensures body == Serialize(items, boundary, finish)
  {
    body := "";
    var i := 0;
    while i < |items|
      invariant 0 <= i <= |items| && body == SerializeItems(items[..i], boundary)
    {
      assert Init(items[..i + 1]) == items[..i] && Last(items[..i + 1]) == items[i];
      body := body + ItemBegin(items[i], boundary);
      body := body + items[i].content + ItemEnd();
      i := i + 1;
    }
    assert items[..|items|] == items;
    if finish {
      body := body + Finish(boundary);
    }
  }

  predicate IsBoundary(boundary: string) {
    forall i :: 0 <= i < |boundary| ==> IsAlnum(boundary[i]) || boundary[i] == '-' || boundary[i] == '_'
  }

  method IsMultipartBoundaryCharsValid(boundary: string) returns (valid: bool)
    ensures valid == IsBoundary(boundary)
    ensures valid <==> forall i :: 0 <= i < |boundary| ==>
                         'a' <= boundary[i] <= 'z' || 'A' <= boundary[i] <= 'Z' || '0' <= boundary[i] <= '9'
                         || boundary[i] == '-' || boundary[i] == '_'
  {
    valid := true;
    var i := 0;
    while i < |boundary|
      invariant 0 <= i <= |boundary| && valid == IsBoundary(boundary[..i])
      invariant valid
    {
      var c := boundary[i];
      if !IsAlnum(c) && c != '-' && c != '_' {
        valid := false;
        break;
      }
      i := i + 1;
    }
  }

  // ----- What the server makes of the calls -----

  /** A header call opens a new entry, a content call extends the last one. */
  function Collect(acc: seq<Item>, events: seq<Event>): seq<Item> {
    if events == [] then acc
    else CollectOne(Collect(acc, Init(events)), Last(events))
  }

  function CollectOne(acc: seq<Item>, e: Event): seq<Item> {
    match e
    case Header(p) => acc + [Item(p.name, "", p.filename, p.contentType)]
    case Content(bytes) =>
      if acc == [] then acc else Init(acc) + [Last(acc).(content := Last(acc).content + bytes)]
  }

  lemma {:induction false} CollectConcat(acc: seq<Item>, a: seq<Event>, b: seq<Event>)
    ensures Collect(acc, a + b) == Collect(Collect(acc, a), b)
  {
    if b == [] {
      assert a + b == a;
    } else {
      assert Init(a + b) == a + Init(b);
      CollectConcat(acc, a, Init(b));
    }
  }
}
