/** Which byte streams the chunked reader accepts, exactly, and what it makes of each of them. */
module ChunkedGrammar {
  import opened Lists
  import opened HeaderFields
  import opened HttpText
  import opened Streams
  import opened Lines
  import opened Chunked
  import Query

  // ----- The grammar -----

  /** A size line with its line end, and the data it announces. */
  datatype Piece = Piece(size: string, data: string)

  /** Behind the last size line: a trailer and the empty line that ends it, or nothing that can be read as a line. */
  datatype End = Trailer(lines: seq<string>, rest: string) | Silence(left: string)

  datatype Message = Message(pieces: seq<Piece>, last: string, end: End)

  function PieceText(p: Piece): string { p.size + p.data + CRLF }

  function PiecesText(ps: seq<Piece>): string {
    if ps == [] then "" else PieceText(ps[0]) + PiecesText(ps[1..])
  }

  function EndText(e: End): string {
    match e
    case Trailer(lines, rest) => Concat(lines) + (CRLF + rest)
    case Silence(left) => left
  }

  function MessageText(m: Message): string { PiecesText(m.pieces) + (m.last + EndText(m.end)) }

  ghost predicate GoodPiece(p: Piece) {
    IsLine(p.size) && StrToUl16(p.size) == Some(|p.data|) && 0 < |p.data| != ULONG_MAX
  }

  ghost predicate GoodLine(line: string) {
    IsLine(line) && line != CRLF && |line| <= 8192
  }

  /** Reading a line fails: nothing is left, or no line end comes before the connection fails or the limit is met. */
  ghost predicate Unreadable(t: string, broken: bool) {
    Unended(t) && (t == "" || broken || |t| >= MAX_LINE_LENGTH)
  }

  /** The last size line is a line; only where a stream ends may its line end be missing. */
  ghost predicate GoodEnd(last: string, e: End, broken: bool) {
    && StrToUl16(last) == Some(0)
    && (IsLine(last)
        || (e == Silence("") && !broken && last != "" && Unended(last) && |last| < MAX_LINE_LENGTH))
    && match e
       case Trailer(lines, _) => forall i :: 0 <= i < |lines| ==> GoodLine(lines[i])
       case Silence(left) => Unreadable(left, broken)
  }

  ghost predicate GoodMessage(m: Message, broken: bool) {
    (forall i :: 0 <= i < |m.pieces| ==> GoodPiece(m.pieces[i])) && GoodEnd(m.last, m.end, broken)
  }

  // ----- What a message holds -----

  function DataOf(ps: seq<Piece>): string {
    if ps == [] then "" else ps[0].data + DataOf(ps[1..])
  }

  function FieldsOfLines(lines: seq<string>): Fields {
    if lines == [] then [] else FieldsOf(lines[0]) + FieldsOfLines(lines[1..])
  }

  function Meaning(m: Message): Decoded {
    match m.end
    case Trailer(lines, rest) => Decoded(true, DataOf(m.pieces), FieldsOfLines(lines), rest)
    case Silence(left) =>
      Decoded(true, DataOf(m.pieces), [], if |left| >= MAX_LINE_LENGTH then left[MAX_LINE_LENGTH..] else "")
  }

  /** A trailer line that reads as a name and a value gives that field, percent codes decoded unless it holds a URL;
      any other line gives nothing. */
  lemma FieldOfLine(text: string)
    ensures (forall name, value :: !Reads(text, name, value)) ==> FieldsOf(text + CRLF) == []
    ensures forall name, value :: Reads(text, name, value) ==>
              FieldsOf(text + CRLF) ==
              [(name, if Respelled(name, "Location") || Respelled(name, "Referer") then value
                      else Query.Decode(value, false))]
  {
    hide Reads, HeaderField, IsHeaderLine, Respelled, Query.Decode;
    assert WithoutEnd(text + CRLF) == text;
    HeaderLineIff(text);
    forall name, value | Reads(text, name, value)
      ensures HeaderField(text) ==
              Some((name, if Respelled(name, "Location") || Respelled(name, "Referer") then value
                          else Query.Decode(value, false)))
    {
      FieldIs(text, name, value);
    }
  }

  // ----- Lines -----

  lemma EmptyLineIsLine()
    ensures IsLine(CRLF) && CString(CRLF) == CRLF
  {
    assert CRLF[0..2] == CRLF;
    IndexOfIs(CRLF, '\0', 2);
  }

  /** Only the empty line compares equal to a line end. */
  lemma ComparesEmpty(line: string)
    requires IsLine(line) || (Unended(line) && |line| < MAX_LINE_LENGTH)
    ensures CString(line) == CRLF <==> line == CRLF
  {
    EmptyLineIsLine();
    if CString(line) == CRLF {
      assert line[0..2] == CString(line)[0..2] == CRLF;
      assert At(line, 0, CRLF);
    }
  }

  lemma UnreadableLine(t: string, broken: bool)
    ensures Unreadable(t, broken) <==> !LineOf(t, broken).ok
    ensures Unreadable(t, broken) ==>
              LineOf(t, broken).rest == if |t| >= MAX_LINE_LENGTH then t[MAX_LINE_LENGTH..] else ""
  {
    hide IsLine, LineOf;
    LineOrNone(t, broken);
    if Unended(t) {
      NoLineInFront(t, broken);
    } else {
      ReadShrinks(t, broken);
    }
  }

  // ----- A chunk in front -----

  /** A whole chunk in front adds its data to whatever is made of the rest, errors included. */
  lemma ChunkInFront(p: Piece, z: string, broken: bool)
    requires GoodPiece(p)
    ensures ReadContent(PieceText(p) + z, broken) == After(p.data, ReadContent(z, broken))
  {
    hide IsLine, LineOf, StrToUl16, TrailerLines, CString;
    var t := p.data + (CRLF + z);
    assert PieceText(p) + z == p.size + t;
    LineInFront(p.size, t, broken);
    assert t[..|p.data|] == p.data && t[|p.data|..] == CRLF + z;
    EmptyLineIsLine();
    LineInFront(CRLF, z, broken);
    FirstChunk(p.size, t, |p.data|, broken);
    assert p.data + "" == p.data;
  }

  /** What the reader does with a size line that announces data which is all there. */
  lemma FirstChunk(size: string, t: string, n: nat, broken: bool)
    requires StrToUl16(size) == Some(n) && 0 < n <= |t| && n != ULONG_MAX
    ensures var end := LineOf(t[n..], broken);
            ReadChunks(size, t, broken) ==
            if !end.ok || CString(end.text) != CRLF then Decoded(false, t[..n], [], end.rest)
            else
              var next := LineOf(end.rest, broken);
              if !next.ok then Decoded(false, t[..n], [], next.rest)
              else After(t[..n], ReadChunks(next.text, next.rest, broken))
  {
    hide LineOf, StrToUl16, CString, TrailerLines;
    LineShrinks(t[n..], broken);
    LineShrinks(LineOf(t[n..], broken).rest, broken);
  }

  /** A chunk that is cut off gives what there is of it, and is refused. */
  lemma CutChunk(size: string, n: nat, t: string, broken: bool)
    requires IsLine(size) && StrToUl16(size) == Some(n) && n != ULONG_MAX && |t| < n
    ensures ReadContent(size + t, broken) == Decoded(false, t, [], "")
  {
    hide IsLine, LineOf, StrToUl16;
    LineInFront(size, t, broken);
  }

  /** A size line without a number, or with the number that stands for an error, is refused. */
  lemma BadSize(size: string, t: string, broken: bool)
    requires IsLine(size) && (StrToUl16(size) == None || StrToUl16(size) == Some(ULONG_MAX))
    ensures ReadContent(size + t, broken) == Decoded(false, "", [], t)
  {
    hide IsLine, LineOf, StrToUl16;
    LineInFront(size, t, broken);
  }

  // ----- Messages are accepted -----

  lemma {:induction false} TrailerIsRead(lines: seq<string>, rest: string, broken: bool)
    requires forall i :: 0 <= i < |lines| ==> GoodLine(lines[i])
    ensures var l := LineOf(Concat(lines) + (CRLF + rest), broken);
            l.ok && TrailerLines(l.text, l.rest, broken) == Decoded(true, "", FieldsOfLines(lines), rest)
    decreases |lines|
  {
    hide IsLine, LineOf, CString, FieldsOf;
    EmptyLineIsLine();
    if lines == [] {
      assert Concat(lines) + (CRLF + rest) == CRLF + rest;
      LineInFront(CRLF, rest, broken);
    } else {
      var z := Concat(lines[1..]) + (CRLF + rest);
      assert Concat(lines) + (CRLF + rest) == lines[0] + z;
      LineInFront(lines[0], z, broken);
      ComparesEmpty(lines[0]);
      TrailerIsRead(lines[1..], rest, broken);
    }
  }

  lemma EndIsRead(last: string, e: End, broken: bool)
    requires GoodEnd(last, e, broken)
    ensures ReadContent(last + EndText(e), broken) == Meaning(Message([], last, e))
  {
    hide IsLine, LineOf, StrToUl16, CString, TrailerLines, FieldsOf, Unended;
    if IsLine(last) {
      LineInFront(last, EndText(e), broken);
    } else {
      assert last + "" == last;
      NoLineInFront(last, broken);
    }
    match e
    case Trailer(lines, rest) => TrailerIsRead(lines, rest, broken);
    case Silence(left) => UnreadableLine(left, broken);
  }

  lemma {:induction false} MessageIsRead(m: Message, broken: bool)
    requires GoodMessage(m, broken)
    ensures ReadContent(MessageText(m), broken) == Meaning(m)
    decreases |m.pieces|
  {
    hide ReadContent, GoodPiece, GoodEnd, PieceText;
    if m.pieces == [] {
      assert MessageText(m) == m.last + EndText(m.end);
      EndIsRead(m.last, m.end, broken);
    } else {
      var p, rest := m.pieces[0], m.(pieces := m.pieces[1..]);
      assert MessageText(m) == PieceText(p) + MessageText(rest);
      ChunkInFront(p, MessageText(rest), broken);
      MessageIsRead(rest, broken);
    }
  }

  // ----- Nothing else is -----

  lemma {:induction false} TrailerIsParsed(t: string, broken: bool) returns (lines: seq<string>, rest: string)
    requires var l := LineOf(t, broken); l.ok && TrailerLines(l.text, l.rest, broken).ok
    ensures t == Concat(lines) + (CRLF + rest) && forall i :: 0 <= i < |lines| ==> GoodLine(lines[i])
    decreases |t|
  {
    hide IsLine, LineOf, CString, FieldsOf, Unended;
    var l := LineOf(t, broken);
    WholeLine(t, broken);
    ReadShrinks(t, broken);
    ComparesEmpty(l.text);
    if l.text == CRLF {
      EmptyLineIsLine();
      lines, rest := [], l.rest;
      assert Concat(lines) + (CRLF + rest) == CRLF + rest;
    } else {
      UnreadableLine(l.rest, broken);
      NothingUnended();
      var more;
      more, rest := TrailerIsParsed(l.rest, broken);
      lines := [l.text] + more;
      assert lines[1..] == more;
      assert l.text + (Concat(more) + (CRLF + rest)) == l.text + Concat(more) + (CRLF + rest);
    }
  }

  /** A line that is read has its line end, or is the end of the stream. */
  lemma WholeLine(t: string, broken: bool)
    requires LineOf(t, broken).ok
    ensures var l := LineOf(t, broken);
            && t == l.text + l.rest
            && (IsLine(l.text)
                || (l.text == t && l.rest == "" && !broken && t != "" && Unended(t) && |t| < MAX_LINE_LENGTH))
  {
    hide IsLine, LineOf, Unended;
    LineOrNone(t, broken);
    if Unended(t) {
      NoLineInFront(t, broken);
      assert t + "" == t;
    }
  }

  lemma EndIsParsed(t: string, broken: bool) returns (m: Message)
    requires ReadContent(t, broken).ok && StrToUl16(LineOf(t, broken).text) == Some(0)
    ensures GoodMessage(m, broken) && MessageText(m) == t
  {
    hide IsLine, LineOf, StrToUl16, CString, TrailerLines, FieldsOf, Unended;
    var l := LineOf(t, broken);
    WholeLine(t, broken);
    UnreadableLine(l.rest, broken);
    UnreadableLine("", broken);
    NothingUnended();
    if LineOf(l.rest, broken).ok {
      var lines, rest := TrailerIsParsed(l.rest, broken);
      m := Message([], l.text, Trailer(lines, rest));
    } else {
      m := Message([], l.text, Silence(l.rest));
    }
    assert MessageText(m) == l.text + EndText(m.end);
  }

  lemma PieceIsParsed(t: string, broken: bool) returns (p: Piece, z: string)
    requires ReadContent(t, broken).ok && StrToUl16(LineOf(t, broken).text) != Some(0)
    ensures GoodPiece(p) && t == PieceText(p) + z
  {
    hide IsLine, LineOf, StrToUl16, CString, TrailerLines, Unended;
    var l := LineOf(t, broken);
    WholeLine(t, broken);
    var n := StrToUl16(l.text).value;
    FirstChunk(l.text, l.rest, n, broken);
    var end := LineOf(l.rest[n..], broken);
    WholeLine(l.rest[n..], broken);
    ComparesEmpty(end.text);
    p, z := Piece(l.text, l.rest[..n]), end.rest;
    assert l.rest == p.data + (CRLF + z);
  }

  lemma {:induction false} ParsedMessage(t: string, broken: bool) returns (m: Message)
    requires ReadContent(t, broken).ok
    ensures GoodMessage(m, broken) && MessageText(m) == t
    decreases |t|
  {
    hide ReadContent, GoodPiece, GoodEnd, PieceText;
    if StrToUl16(LineOf(t, broken).text) == Some(0) {
      m := EndIsParsed(t, broken);
    } else {
      var p, z := PieceIsParsed(t, broken);
      ChunkInFront(p, z, broken);
      PieceIsText(p);
      var rest := ParsedMessage(z, broken);
      m := rest.(pieces := [p] + rest.pieces);
      assert m.pieces[1..] == rest.pieces;
      assert MessageText(m) == PieceText(p) + MessageText(rest);
    }
  }

  lemma PieceIsText(p: Piece)
    ensures PieceText(p) != ""
  {
  }

  /** The reader accepts a stream exactly if it begins with a message, and then gives what the message holds and
      leaves what follows it. */
  lemma AcceptedIffMessage(t: string, broken: bool)
    ensures ReadContent(t, broken).ok <==> exists m :: GoodMessage(m, broken) && MessageText(m) == t
    ensures forall m :: GoodMessage(m, broken) && MessageText(m) == t ==> ReadContent(t, broken) == Meaning(m)
  {
    hide ReadContent, GoodMessage, MessageText, Meaning;
    forall m | GoodMessage(m, broken) && MessageText(m) == t
      ensures ReadContent(t, broken) == Meaning(m) && ReadContent(t, broken).ok
    {
      MessageIsRead(m, broken);
      MeaningIsFine(m);
    }
    if ReadContent(t, broken).ok {
      var m := ParsedMessage(t, broken);
    }
  }

  lemma MeaningIsFine(m: Message)
    ensures Meaning(m).ok
  {
  }
}
