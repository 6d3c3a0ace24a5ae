/** The chunked reader undoes the chunked writer. */
module ChunkedRoundTrip {
  import opened HeaderFields
  import opened Lists
  import opened HttpText
  import opened Streams
  import opened ChunkSizes
  import opened Chunked

  // ----- Lines of the coding -----

  lemma PlainLine(text: string, z: string, broken: bool)
    requires (forall i :: 0 <= i < |text| ==> text[i] != '\r') && |text| + 2 <= MAX_LINE_LENGTH
    ensures LineOf(text + CRLF + z, broken) == NextLine(true, text + CRLF, z)
  {
    var t := text + CRLF + z;
    FreeWithoutFirst(text, CRLF);
    DelimiterIsFirst(text, CRLF, z);
    FindIs(t, CRLF, |text|);
    assert t[..|text| + 2] == text + CRLF && t[|text| + 2..] == z;
  }

  lemma SizeLine(n: nat, z: string, broken: bool)
    requires n < ULONG_MAX
    ensures LineOf(Hex(n) + CRLF + z, broken) == NextLine(true, Hex(n) + CRLF, z)
  {
    HexIsHex(n);
    PowerOf16();
    HexIsShort(n, 16);
    PlainLine(Hex(n), z, broken);
  }

  lemma EmptyLine(z: string, broken: bool)
    ensures LineOf(CRLF + z, broken) == NextLine(true, CRLF, z) && CString(CRLF) == CRLF
  {
    PlainLine("", z, broken);
    assert "" + CRLF + z == CRLF + z && "" + CRLF == CRLF;
    IndexOfIs(CRLF, '\0', 2);
  }

  // ----- Trailers -----

  /** A trailer field that is read as it is, on a line the reader allows. */
  predicate GoodField(field: (string, string)) {
    IsToken(field.0) && ReadableValue(field.0, field.1) && |FieldLine(field)| <= HEADER_MAX_LENGTH
  }

  predicate GoodTrailer(trailer: Fields) {
    forall i :: 0 <= i < |trailer| ==> GoodField(trailer[i])
  }

  /** What the lines of a trailer and the empty line behind them look like from the front. */
  function TrailerThen(trailer: Fields, rest: string): string {
    if trailer == [] then CRLF + rest else FieldLine(trailer[0]) + TrailerThen(trailer[1..], rest)
  }

  function TrailerHead(trailer: Fields): string {
    if trailer == [] then CRLF else FieldLine(trailer[0])
  }

  function TrailerTail(trailer: Fields, rest: string): string {
    if trailer == [] then rest else TrailerThen(trailer[1..], rest)
  }

  lemma {:induction false} TrailerForm(trailer: Fields, rest: string)
    ensures TrailerText(trailer) + (CRLF + rest) == TrailerThen(trailer, rest)
  {
    hide FieldLine;
    if trailer == [] {
    } else {
      TrailerFirst(trailer);
      TrailerForm(trailer[1..], rest);
      var f, t := FieldLine(trailer[0]), TrailerText(trailer[1..]);
      assert f + t + (CRLF + rest) == f + (t + (CRLF + rest));
    }
  }

  lemma {:induction false} TrailerFirst(trailer: Fields)
    requires trailer != []
    ensures TrailerText(trailer) == FieldLine(trailer[0]) + TrailerText(trailer[1..])
  {
    hide FieldLine;
    if |trailer| == 1 {
      assert Init(trailer) == [] && trailer[1..] == [];
      assert "" + FieldLine(trailer[0]) == FieldLine(trailer[0]) + "";
    } else {
      TrailerFirst(Init(trailer));
      assert Init(trailer)[1..] == Init(trailer[1..]);
      var first, between, last := FieldLine(trailer[0]), TrailerText(Init(trailer)[1..]), FieldLine(Last(trailer));
      assert first + between + last == first + (between + last);
    }
  }

  /** The text of a good field line holds no line end and no zero byte. */
  lemma FieldLineIsPlain(field: (string, string))
    requires GoodField(field)
    ensures var text := field.0 + ": " + field.1;
            && FieldLine(field) == text + CRLF && text != "" && text[0] != '\r'
            && (forall i :: 0 <= i < |text| ==> text[i] != '\r') && |text| + 2 <= MAX_LINE_LENGTH
  {
    assert IsTokenChar(field.0[0]);
    var text := field.0 + ": " + field.1;
    forall i | 0 <= i < |text|
      ensures text[i] != '\r'
    {
      if i < |field.0| {
        assert IsTokenChar(field.0[i]);
      } else if i >= |field.0| + 2 {
        assert text[i] == field.1[i - |field.0| - 2];
      }
    }
  }

  lemma NextTrailerLine(trailer: Fields, rest: string, broken: bool)
    requires GoodTrailer(trailer)
    ensures LineOf(TrailerThen(trailer, rest), broken) ==
            NextLine(true, TrailerHead(trailer), TrailerTail(trailer, rest))
  {
    if trailer == [] {
      EmptyLine(rest, broken);
    } else {
      var f := trailer[0];
      FieldLineIsPlain(f);
      PlainLine(f.0 + ": " + f.1, TrailerThen(trailer[1..], rest), broken);
    }
  }

  lemma FieldLineReadsBack(field: (string, string))
    requires GoodField(field)
    ensures FieldsOf(FieldLine(field)) == [field] && CString(FieldLine(field)) != CRLF
  {
    hide HeaderField, ReadableValue;
    var text := field.0 + ": " + field.1;
    FieldLineIsPlain(field);
    FieldReadsBack(field.0, field.1);
    assert FieldLine(field)[..|FieldLine(field)| - 2] == text;
    assert CString(FieldLine(field)) != "" ==> CString(FieldLine(field))[0] == text[0];
  }

  lemma {:induction false} TrailerReadsBack(trailer: Fields, rest: string, broken: bool)
    requires GoodTrailer(trailer)
    ensures TrailerLines(TrailerHead(trailer), TrailerTail(trailer, rest), broken) == Decoded(true, "", trailer, rest)
    decreases |trailer|
  {
    hide LineOf, CString, FieldsOf, FieldLine;
    if trailer == [] {
      EmptyLine(rest, broken);
    } else {
      FieldLineReadsBack(trailer[0]);
      NextTrailerLine(trailer[1..], rest, broken);
      TrailerReadsBack(trailer[1..], rest, broken);
      assert [trailer[0]] + trailer[1..] == trailer;
    }
  }

  // ----- Round trip -----

  /** The bytes that writing these chunks and then finishing puts on the stream. */
  function Encode(chunks: seq<string>, trailer: Fields): string {
    if chunks == [] then LAST_CHUNK + TrailerText(trailer) + CRLF else Chunk(chunks[0]) + Encode(chunks[1..], trailer)
  }

  ghost predicate GoodChunks(chunks: seq<string>) {
    forall i :: 0 <= i < |chunks| ==> 0 < |chunks[i]| < ULONG_MAX
  }

  function NextSize(chunks: seq<string>): nat {
    if chunks == [] then 0 else |chunks[0]|
  }

  /** What follows the size line. */
  function Behind(chunks: seq<string>, trailer: Fields, rest: string): string {
    if chunks == [] then TrailerThen(trailer, rest) else chunks[0] + (CRLF + (Encode(chunks[1..], trailer) + rest))
  }

  lemma EncodedForm(chunks: seq<string>, trailer: Fields, rest: string)
    requires GoodChunks(chunks)
    ensures Encode(chunks, trailer) + rest == Hex(NextSize(chunks)) + CRLF + Behind(chunks, trailer, rest)
  {
    hide TrailerText, TrailerThen;
    if chunks == [] {
      var t := TrailerText(trailer);
      assert LAST_CHUNK == Hex(0) + CRLF;
      TrailerForm(trailer, rest);
      assert LAST_CHUNK + t + CRLF + rest == LAST_CHUNK + (t + (CRLF + rest));
    } else {
      var h, c, e := Hex(|chunks[0]|), chunks[0], Encode(chunks[1..], trailer);
      Regroup(h, CRLF, c, e, rest);
    }
  }

  lemma Regroup(h: string, crlf: string, c: string, e: string, rest: string)
    ensures h + crlf + c + crlf + e + rest == h + crlf + (c + (crlf + (e + rest)))
  {
  }

  lemma EncodedLine(chunks: seq<string>, trailer: Fields, rest: string, broken: bool)
    requires GoodChunks(chunks)
    ensures LineOf(Encode(chunks, trailer) + rest, broken) ==
            NextLine(true, Hex(NextSize(chunks)) + CRLF, Behind(chunks, trailer, rest))
  {
    EncodedForm(chunks, trailer, rest);
    SizeLine(NextSize(chunks), Behind(chunks, trailer, rest), broken);
  }

  lemma {:induction false} ChunksReadBack(chunks: seq<string>, trailer: Fields, rest: string, broken: bool)
    requires GoodChunks(chunks) && GoodTrailer(trailer)
    ensures ReadChunks(Hex(NextSize(chunks)) + CRLF, Behind(chunks, trailer, rest), broken) ==
            Decoded(true, Concat(chunks), trailer, rest)
    decreases |chunks|
  {
    hide LineOf, StrToUl16, CString, Hex, TrailerThen, TrailerLines, GoodTrailer;
    SizeLineReadsBack(NextSize(chunks));
    if chunks == [] {
      NextTrailerLine(trailer, rest, broken);
      TrailerReadsBack(trailer, rest, broken);
    } else {
      var c, z, t := chunks[0], Encode(chunks[1..], trailer) + rest, Behind(chunks, trailer, rest);
      assert t[..|c|] == c && t[|c|..] == CRLF + z;
      EmptyLine(z, broken);
      EncodedLine(chunks[1..], trailer, rest, broken);
      ChunksReadBack(chunks[1..], trailer, rest, broken);
    }
  }

  /** Reading what was written gives the data and the trailer, and leaves what follows on the stream alone. */
  lemma ChunkedRoundTrip(chunks: seq<string>, trailer: Fields, rest: string, broken: bool)
    requires GoodChunks(chunks) && GoodTrailer(trailer)
    ensures ReadContent(Encode(chunks, trailer) + rest, broken) == Decoded(true, Concat(chunks), trailer, rest)
  {
    hide LineOf, ReadChunks;
    EncodedLine(chunks, trailer, rest, broken);
    ChunksReadBack(chunks, trailer, rest, broken);
  }

  // ----- The writer produces the coding -----

  function Flatten(calls: seq<Call>): seq<SinkOp> {
    if calls == [] then [] else calls[0].ops + Flatten(calls[1..])
  }

  function Writes(chunks: seq<string>, trailer: Fields): seq<SinkOp> {
    if chunks == [] then [Done(trailer)] else [Write(chunks[0])] + Writes(chunks[1..], trailer)
  }

  lemma EmittedLast(s: seq<SinkOp>)
    requires s != []
    ensures EmittedAll(s) == EmittedAll(Init(s)) + Emitted(Last(s))
  {
  }

  lemma {:induction false} EmittedConcat(a: seq<SinkOp>, b: seq<SinkOp>)
    ensures EmittedAll(a + b) == EmittedAll(a) + EmittedAll(b)
  {
    hide Emitted, EmittedAll;
    if b == [] {
      EmittedOne(Write(""));
      assert a + b == a;
    } else {
      assert Init(a + b) == a + Init(b) && Last(a + b) == Last(b);
      EmittedConcat(a, Init(b));
      EmittedLast(a + b);
      EmittedLast(b);
      assert EmittedAll(a) + (EmittedAll(Init(b)) + Emitted(Last(b))) ==
             EmittedAll(a) + EmittedAll(Init(b)) + Emitted(Last(b));
    }
  }

  lemma {:induction false} EmittedWrites(chunks: seq<string>, trailer: Fields)
    ensures EmittedAll(Writes(chunks, trailer)) == Encode(chunks, trailer)
  {
    hide EmittedAll, Chunk;
    if chunks == [] {
      EmittedOne(Done(trailer));
    } else {
      EmittedConcat([Write(chunks[0])], Writes(chunks[1..], trailer));
      EmittedWrites(chunks[1..], trailer);
      EmittedOne(Write(chunks[0]));
    }
  }

  lemma EmittedOne(op: SinkOp)
    ensures EmittedAll([op]) == Emitted(op) && EmittedAll([]) == ""
  {
    hide Emitted;
    assert Init([op]) == [];
    assert "" + Emitted(op) == Emitted(op);
  }

  lemma {:induction false} WritesForm(chunks: seq<string>, trailer: Fields)
    ensures |Writes(chunks, trailer)| == |chunks| + 1 && Writes(chunks, trailer)[|chunks|] == Done(trailer)
    ensures forall i :: 0 <= i < |chunks| ==> Writes(chunks, trailer)[i] == Write(chunks[i])
  {
    if chunks == [] {
    } else {
      WritesForm(chunks[1..], trailer);
    }
  }

  ghost predicate WritesButLast(ops: seq<SinkOp>) {
    forall i :: 0 <= i < |ops| - 1 ==> ops[i].Write? && ops[i].data != ""
  }

  /** However the writes are spread over provider calls, all of them reach the stream. */
  lemma {:induction false} OutputIsAll(calls: seq<Call>)
    requires WritesButLast(Flatten(calls))
    ensures Output(calls) == EmittedAll(Flatten(calls))
  {
    hide EmittedAll;
    EmittedOne(Write(""));
    if calls == [] {
    } else {
      var first, later := calls[0].ops, Flatten(calls[1..]);
      var ops := Flatten(calls);
      assert ops == first + later;
      forall i | 0 <= i < |later| - 1
        ensures later[i].Write? && later[i].data != ""
      {
        assert later[i] == ops[|first| + i];
      }
      EmittedConcat(first, later);
      OutputIsAll(calls[1..]);
      if !MoreAfter(first) {
        assert Last(first) == first[|first| - 1] == ops[|first| - 1];
        assert later == [];
      }
    }
  }

  /** Non-empty writes followed by done with a trailer, in any number of provider calls, are read back as their
      concatenation and the fields of the trailer. */
  lemma WrittenChunksReadBack(calls: seq<Call>, chunks: seq<string>, trailer: Fields, rest: string, broken: bool)
    requires GoodChunks(chunks) && GoodTrailer(trailer) && Flatten(calls) == Writes(chunks, trailer)
    ensures ReadContent(Output(calls) + rest, broken) == Decoded(true, Concat(chunks), trailer, rest)
  {
    hide ReadContent, GoodTrailer;
    WritesForm(chunks, trailer);
    OutputIsAll(calls);
    EmittedWrites(chunks, trailer);
    ChunkedRoundTrip(chunks, trailer, rest, broken);
  }
}
