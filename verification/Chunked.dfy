/** The chunked transfer coding: the reader, the writer, and what each of them does as a function. */
module Chunked {
  import opened HeaderFields
  import opened Lists
  import opened HttpText
  import opened Streams
  import Query

  const ULONG_MAX := 0xFFFF_FFFF_FFFF_FFFF
  const RECV_BUFFER_SIZE := 16384
  const HEADER_MAX_LENGTH := 8192
  const LAST_CHUNK := "0\r\n"

  // ----- Chunk sizes -----

  function HexChar(d: nat): (c: char)
    requires d < 16
    ensures Query.HexDigit(c) == Some(d) && (IsDigit(c) || 'a' <= c <= 'f')
  {
    if d < 10 then ('0' as int + d) as char else ('a' as int + d - 10) as char
  }

  function Hex(n: nat): string {
    if n < 16 then [HexChar(n)] else Hex(n / 16) + [HexChar(n % 16)]
  }

  method FromIToHex(size: nat) returns (ret: string)
    ensures ret == Hex(size)
  {
    ret := [HexChar(size % 16)];
    var n := size / 16;
    while n > 0
      invariant 0 <= n
      invariant (if n == 0 then "" else Hex(n)) + ret == Hex(size)
      decreases n
    {
      assert n >= 16 ==> Hex(n) == Hex(n / 16) + [HexChar(n % 16)];
      assert n >= 16 ==> Hex(n / 16) + [HexChar(n % 16)] + ret == Hex(n / 16) + ([HexChar(n % 16)] + ret);
      ret := [HexChar(n % 16)] + ret;
      n := n / 16;
    }
  }

  /** The C string that a buffer holds. */
  function CString(s: string): string {
    s[..IndexOf(s, '\0')]
  }

  predicate IsSpace(c: char) { c == ' ' || 9 <= c as int <= 13 }

  function SkipSpaces(s: string): string {
    if s != "" && IsSpace(s[0]) then SkipSpaces(s[1..]) else s
  }

  function HexRun(s: string): (n: nat)
    ensures n <= |s| && forall i :: 0 <= i < n ==> Query.HexDigit(s[i]).Some?
  {
    if s != "" && Query.HexDigit(s[0]).Some? then 1 + HexRun(s[1..]) else 0
  }

  function HexNumber(s: string): nat
    requires forall i :: 0 <= i < |s| ==> Query.HexDigit(s[i]).Some?
  {
    if s == "" then 0 else 16 * HexNumber(Init(s)) + Query.HexDigit(Last(s)).value
  }

  function BehindPrefix(u: string): string {
    if |u| >= 3 && u[0] == '0' && (u[1] == 'x' || u[1] == 'X') && Query.HexDigit(u[2]).Some? then u[2..] else u
  }

  /** strtoul with base 16: white space, a sign, an optional 0x, digits; None if there is no digit. A number
      out of range reads as the largest one, a negated one wraps around. */
  function StrToUl16(line: string): Option<nat> {
    var t := SkipSpaces(CString(line));
    var signed := t != "" && (t[0] == '-' || t[0] == '+');
    var v := BehindPrefix(if signed then t[1..] else t);
    if HexRun(v) == 0 then None
    else
      var n := HexNumber(v[..HexRun(v)]);
      Some(if n > ULONG_MAX then ULONG_MAX else if signed && t[0] == '-' && n > 0 then ULONG_MAX + 1 - n else n)
  }

  // ----- Reading -----

  /** What the reader makes of a stream: its verdict, the data, the fields of the trailer, and what is left. */
  datatype Decoded = Decoded(ok: bool, body: string, fields: Fields, rest: string)

  type Fields = seq<(string, string)>

  lemma LineShrinks(t: string, broken: bool)
    ensures var l := LineOf(t, broken); |l.rest| <= |t| && (l.ok ==> l.text != "" && |l.rest| < |t|)
  {
    FindFirst(t, CRLF);
  }

  function WithoutEnd(line: string): string {
    if |line| >= 2 then line[..|line| - 2] else ""
  }

  /** The field of a trailer line, if it is well formed. */
  function FieldsOf(line: string): Fields {
    match HeaderField(WithoutEnd(line)) case Some(field) => [field] case None => []
  }

  function After(body: string, r: Decoded): Decoded {
    r.(body := body + r.body)
  }

  function WithFields(fields: Fields, r: Decoded): Decoded {
    r.(fields := fields + r.fields)
  }

  /** Trailer lines up to an empty one. */
  function TrailerLines(line: string, t: string, broken: bool): Decoded
    decreases |t|
  {
    if CString(line) == CRLF then Decoded(true, "", [], t)
    else if |line| > HEADER_MAX_LENGTH then Decoded(false, "", [], t)
    else
      var l := LineOf(t, broken);
      LineShrinks(t, broken);
      WithFields(FieldsOf(line), if l.ok then TrailerLines(l.text, l.rest, broken) else Decoded(false, "", [], l.rest))
  }

  /** The chunk whose size line has been read, and everything behind it. */
  function ReadChunks(line: string, t: string, broken: bool): Decoded
    decreases |t|
  {
    match StrToUl16(line)
    case None => Decoded(false, "", [], t)
    case Some(n) =>
      if n == ULONG_MAX then Decoded(false, "", [], t)
      else if n == 0 then
        var l := LineOf(t, broken);
        if l.ok then TrailerLines(l.text, l.rest, broken) else Decoded(true, "", [], l.rest)
      else if |t| < n then Decoded(false, t, [], "")
      else
        var end := LineOf(t[n..], broken);
        LineShrinks(t[n..], broken);
        if !end.ok || CString(end.text) != CRLF then Decoded(false, t[..n], [], end.rest)
        else
          var next := LineOf(end.rest, broken);
          LineShrinks(end.rest, broken);
          if !next.ok then Decoded(false, t[..n], [], next.rest)
          else
            var r := ReadChunks(next.text, next.rest, broken);
            After(t[..n], r)
  }

  function ReadContent(t: string, broken: bool): Decoded {
    var l := LineOf(t, broken);
    if l.ok then ReadChunks(l.text, l.rest, broken) else Decoded(false, "", [], l.rest)
  }

  /** Hands on exactly len bytes, in portions of at most the receive buffer, or all there are. */
  method ReadContentWithLength(strm: SocketStream, len: nat) returns (ok: bool, body: string)
    requires strm.Valid()
    modifies strm, strm.readBuff, strm.sock
    ensures strm.Valid() && ok == (|old(strm.Pending())| >= len) && old(strm.All()) == body + strm.All()
    ensures old(strm.Pending()) == body + strm.Left(old(strm.sock.later))
    ensures if ok then |body| == len && strm.sock.later == old(strm.sock.later)
            else strm.Left(old(strm.sock.later)) == ""
  {
    hide SocketStream.All, SocketStream.Pending;
    ghost var t, all, later := strm.Pending(), strm.All(), strm.sock.later;
    body := "";
    var r := 0;
    while r < len
      invariant strm.Valid() && 0 <= r <= len && |body| == r && t == body + strm.Pending()
      invariant strm.sock.later == later && all == body + strm.All()
    {
      var readLen := len - r;
      ghost var before, beforeAll := strm.Pending(), strm.All();
      var n, data := strm.Read(if readLen < RECV_BUFFER_SIZE then readLen else RECV_BUFFER_SIZE);
      HandedOn(body, beforeAll, data, strm.All());
      if n <= 0 {
        return false, body;
      }
      HandedOn(body, before, data, strm.Pending());
      body := body + data;
      r := r + n;
    }
    return true, body;
  }

  method ReadTrailer(reader: StreamLineReader) returns (ok: bool, fields: Fields)
    requires reader.Valid()
    modifies reader`fixedBufferUsedSize, reader`growableBuffer, reader.fixedBuffer, reader.strm, reader.strm.readBuff,
             reader.strm.sock
    ensures reader.Valid()
    ensures Decoded(ok, "", fields, reader.strm.Left(old(reader.strm.sock.later))) ==
            TrailerLines(old(reader.Text()), old(reader.strm.Pending()), old(reader.strm.sock.Fails()))
  {
    hide LineOf, CString, HeaderField;
    ghost var broken, later := reader.strm.sock.Fails(), reader.strm.sock.later;
    ghost var line, t := reader.Text(), reader.strm.Pending();
    fields := [];
    while CString(reader.Text()) != CRLF
      invariant reader.Valid() && reader.strm.sock.later == later
      invariant WithFields(fields, TrailerLines(reader.Text(), reader.strm.Pending(), broken)) ==
                TrailerLines(line, t, broken)
      decreases |reader.strm.Pending()|
    {
      LineShrinks(reader.strm.Pending(), broken);
      if |reader.Text()| > HEADER_MAX_LENGTH {
        return false, fields;
      }
      TrailerRound(reader.Text(), reader.strm.Pending(), broken, fields);
      var field := ParseHeader(WithoutEnd(reader.Text()));
      if field.Some? {
        fields := fields + [field.value];
      }
      var more := reader.Getline();
      if !more {
        return false, fields;
      }
    }
    return true, fields;
  }

  lemma TrailerRound(line: string, t: string, broken: bool, fields: Fields)
    requires CString(line) != CRLF && |line| <= HEADER_MAX_LENGTH
    ensures var l, now := LineOf(t, broken), fields + FieldsOf(line);
            |l.rest| <= |t| && (l.ok ==> |l.rest| < |t|)
            && WithFields(fields, TrailerLines(line, t, broken)) ==
               WithFields(now, if l.ok then TrailerLines(l.text, l.rest, broken) else Decoded(false, "", [], l.rest))
    ensures fields + [] == fields
  {
    hide LineOf, CString, FieldsOf;
    LineShrinks(t, broken);
    var l := LineOf(t, broken);
    var r := if l.ok then TrailerLines(l.text, l.rest, broken) else Decoded(false, "", [], l.rest);
    assert fields + (FieldsOf(line) + r.fields) == fields + FieldsOf(line) + r.fields;
  }

  /** One chunk: its data, the line end behind it, and the next size line. */
  function OneChunk(t: string, n: nat, broken: bool): Decoded {
    if |t| < n then Decoded(false, t, [], "")
    else
      var end := LineOf(t[n..], broken);
      if !end.ok || CString(end.text) != CRLF then Decoded(false, t[..n], [], end.rest)
      else Decoded(LineOf(end.rest, broken).ok, t[..n], [], LineOf(end.rest, broken).rest)
  }

  lemma ChunkRound(line: string, t: string, broken: bool, body: string)
    ensures var size := StrToUl16(line);
            && (size.None? || size.value == ULONG_MAX ==>
               After(body, ReadChunks(line, t, broken)) == Decoded(false, body, [], t))
            && (size.Some? && size.value == 0 ==>
                  var l := LineOf(t, broken);
                  After(body, ReadChunks(line, t, broken)) ==
                    After(body, if l.ok then TrailerLines(l.text, l.rest, broken) else Decoded(true, "", [], l.rest)))
            && (size.Some? && 0 < size.value != ULONG_MAX ==>
                  var c := OneChunk(t, size.value, broken);
                  && (!c.ok ==> After(body, ReadChunks(line, t, broken)) == Decoded(false, body + c.body, [], c.rest))
                  && (c.ok ==>
                        && |c.rest| < |t|
                        && After(body, ReadChunks(line, t, broken)) ==
                           After(body + c.body,
                             ReadChunks(LineOf(LineOf(t[size.value..], broken).rest, broken).text, c.rest, broken))))
  {
    hide LineOf, CString, StrToUl16, TrailerLines;
    var size := StrToUl16(line);
    if size.Some? && 0 < size.value != ULONG_MAX && size.value <= |t| {
      var n := size.value;
      var end := LineOf(t[n..], broken);
      LineShrinks(t[n..], broken);
      LineShrinks(end.rest, broken);
      var next := LineOf(end.rest, broken);
      var r := ReadChunks(next.text, next.rest, broken);
      assert body + (t[..n] + r.body) == body + t[..n] + r.body;
    }
  }

  method ReadChunk(reader: StreamLineReader, n: nat) returns (ok: bool, data: string)
    requires reader.Valid()
    modifies reader`fixedBufferUsedSize, reader`growableBuffer, reader.fixedBuffer, reader.strm, reader.strm.readBuff,
             reader.strm.sock
    ensures reader.Valid()
    ensures var t, broken := old(reader.strm.Pending()), old(reader.strm.sock.Fails());
            && OneChunk(t, n, broken) == Decoded(ok, data, [], reader.strm.Left(old(reader.strm.sock.later)))
            && (ok ==> reader.strm.sock.later == old(reader.strm.sock.later) && n <= |t|
                       && reader.Text() == LineOf(LineOf(t[n..], broken).rest, broken).text)
  {
    hide LineOf, CString;
    ghost var t := reader.strm.Pending();
    var complete;
    complete, data := ReadContentWithLength(reader.strm, n);
    if !complete {
      assert data + "" == data;
      return false, data;
    }
    assert data == t[..n] && reader.strm.Pending() == t[n..];
    var ended := reader.Getline();
    if !ended || CString(reader.Text()) != CRLF {
      return false, data;
    }
    ok := reader.Getline();
  }

  method ReadContentChunked(strm: SocketStream) returns (ok: bool, body: string, fields: Fields)
    requires strm.Valid()
    modifies strm, strm.readBuff, strm.sock
    ensures strm.Valid()
    ensures Decoded(ok, body, fields, strm.Left(old(strm.sock.later))) ==
            ReadContent(old(strm.Pending()), old(strm.sock.Fails()))
  {
    hide LineOf, CString, StrToUl16, TrailerLines, ReadChunks;
    var buf := new char[16];
    var reader := new StreamLineReader(strm, buf);
    ghost var later, broken := strm.sock.later, strm.sock.Fails();
    ghost var all := ReadContent(strm.Pending(), broken);
    body, fields := "", [];
    var first := reader.Getline();
    if !first {
      return false, "", [];
    }
    while true
      invariant reader.Valid() && reader.strm == strm && reader.fixedBuffer == buf && strm.sock.later == later
      invariant all == After(body, ReadChunks(reader.Text(), strm.Pending(), broken))
      decreases |strm.Pending()|
    {
      ChunkRound(reader.Text(), strm.Pending(), broken, body);
      var chunkLen := StrToUl16(reader.Text());
      if chunkLen.None? || chunkLen.value == ULONG_MAX {
        return false, body, [];
      }
      if chunkLen.value == 0 {
        break;
      }
      var state, data := ReadChunk(reader, chunkLen.value);
      body := body + data;
      if !state {
        return false, body, [];
      }
    }
    var trailer := reader.Getline();
    if !trailer {
      return true, body, [];
    }
    ok, fields := ReadTrailer(reader);
  }

  // ----- Writing -----

  /** The sending end of a connection: a write takes some of the bytes, or fails. */
  class Wire {
    var sent: string

    constructor ()
      ensures sent == ""
    {
      sent := "";
    }

    method Send(d: string) returns (n: int)
      requires d != ""
      modifies this
      ensures if n < 0 then sent == old(sent) else 0 < n <= |d| && sent == old(sent) + d[..n]
    {
      if * {
        return -1;
      }
      n :| 0 < n <= |d|;
      sent := sent + d[..n];
    }
  }

  /** All the bytes, or some of them and failure. */
  method WriteData(strm: Wire, d: string) returns (ok: bool)
    modifies strm
    ensures old(strm.sent) <= strm.sent && (ok ==> strm.sent == old(strm.sent) + d)
  {
    var offset := 0;
    while offset < |d|
      invariant 0 <= offset <= |d| && strm.sent == old(strm.sent) + d[..offset]
    {
      var length := strm.Send(d[offset..]);
      if length < 0 {
        return false;
      }
      assert d[..offset] + d[offset..][..length] == d[..offset + length];
      assert old(strm.sent) + d[..offset] + d[offset..][..length] ==
             old(strm.sent) + (d[..offset] + d[offset..][..length]);
      offset := offset + length;
    }
    assert d[..offset] == d;
    return true;
  }

  /** What a content provider does with the sink: writing data, or being done, with a trailer or without. */
  datatype SinkOp = Write(data: string) | Done(trailer: Fields)

  /** One call of the provider: what it does, and whether it reports success. */
  datatype Call = Call(ops: seq<SinkOp>, goesOn: bool)

  function Chunk(data: string): string {
    if data == "" then "" else Hex(|data|) + CRLF + data + CRLF
  }

  function FieldLine(field: (string, string)): string {
    field.0 + ": " + field.1 + CRLF
  }

  function TrailerText(trailer: Fields): string {
    if trailer == [] then "" else TrailerText(Init(trailer)) + FieldLine(Last(trailer))
  }

  function Emitted(op: SinkOp): string {
    match op
    case Write(data) => Chunk(data)
    case Done(trailer) => LAST_CHUNK + TrailerText(trailer) + CRLF
  }

  /** What one call of the content provider writes, and whether it may be called again. */
  function EmittedAll(ops: seq<SinkOp>): string {
    if ops == [] then "" else EmittedAll(Init(ops)) + Emitted(Last(ops))
  }

  predicate MoreAfter(ops: seq<SinkOp>) {
    ops == [] || (Last(ops).Write? && Last(ops).data != "")
  }

  /** The provider is called until it has finished or written nothing. */
  function Output(calls: seq<Call>): string {
    if calls == [] then ""
    else EmittedAll(calls[0].ops) + if MoreAfter(calls[0].ops) then Output(calls[1..]) else ""
  }

  ghost predicate AllGoOn(calls: seq<Call>, n: nat) {
    n <= |calls| && forall i :: 0 <= i < n ==> MoreAfter(calls[i].ops)
  }

  /** One more call, after calls that have all left more to do. */
  lemma {:induction false} OneMoreCall(calls: seq<Call>, n: nat)
    requires n < |calls| && AllGoOn(calls, n)
    ensures Output(calls[..n + 1]) == Output(calls[..n]) + EmittedAll(calls[n].ops)
    ensures Output(calls) == Output(calls[..n + 1]) + if MoreAfter(calls[n].ops) then Output(calls[n + 1..]) else ""
    ensures AllGoOn(calls, n + 1) <==> MoreAfter(calls[n].ops)
    decreases n
  {
    hide EmittedAll, MoreAfter;
    var first, rest := EmittedAll(calls[0].ops), calls[1..];
    if n == 0 {
      assert calls[..1][1..] == [] && calls[..0] == [];
    } else {
      OneMoreCall(rest, n - 1);
      assert calls[..n + 1][1..] == rest[..n] && calls[..n][1..] == rest[..n - 1] && calls[n + 1..] == rest[n..];
      assert MoreAfter(calls[0].ops);
      var last, later := EmittedAll(calls[n].ops), if MoreAfter(calls[n].ops) then Output(calls[n + 1..]) else "";
      assert first + (Output(rest[..n - 1]) + last) == first + Output(rest[..n - 1]) + last;
      assert first + (Output(rest[..n]) + later) == first + Output(rest[..n]) + later;
    }
  }

  lemma NoCallYet(calls: seq<Call>)
    ensures Output(calls[..0]) == "" && Output([]) == "" && AllGoOn(calls, 0) && calls[0..] == calls
  {
  }

  class DataSink {
    const strm: Wire
    var ok: bool
    var dataAvailable: bool
    var offset: nat

    constructor (strm: Wire)
      ensures this.strm == strm && ok && dataAvailable && offset == 0
    {
      this.strm, ok, dataAvailable, offset := strm, true, true, 0;
    }

    /** Without compression the payload is the data itself. Once a write has failed nothing happens any more. */
    method Write(d: string)
      modifies this, strm
      ensures if old(ok) then dataAvailable == (d != "") && offset == old(offset) + |d|
              else unchanged(this) && unchanged(strm)
      ensures old(strm.sent) <= strm.sent && (ok ==> strm.sent == old(strm.sent) + Emitted(SinkOp.Write(d)))
    {
      if ok {
        dataAvailable := |d| > 0;
        offset := offset + |d|;
        var payload := d;
        if payload != "" {
          var size := FromIToHex(|payload|);
          var chunk := size + CRLF + payload + CRLF;
          var written := WriteData(strm, chunk);
          if !written {
            ok := false;
          }
        }
      }
    }

    /** The last chunk, the trailer and an empty line, each of which is tried even if one before it has failed. */
    method DoneWithTrailer(trailer: Fields)
      modifies this, strm
      ensures if old(ok) then !dataAvailable && offset == old(offset) else unchanged(this) && unchanged(strm)
      ensures old(strm.sent) <= strm.sent && (ok ==> strm.sent == old(strm.sent) + Emitted(Done(trailer)))
    {
      if !ok {
        return;
      }
      dataAvailable := false;
      ghost var before := strm.sent;
      var written := WriteData(strm, LAST_CHUNK);
      if !written {
        ok := false;
      }
      assert TrailerText(trailer[..0]) == "";
      for i := 0 to |trailer|
        invariant !dataAvailable && offset == old(offset) && old(strm.sent) <= strm.sent
        invariant ok ==> strm.sent == before + LAST_CHUNK + TrailerText(trailer[..i])
      {
        assert Init(trailer[..i + 1]) == trailer[..i] && Last(trailer[..i + 1]) == trailer[i];
        ghost var text, line := TrailerText(trailer[..i]), FieldLine(trailer[i]);
        written := WriteData(strm, trailer[i].0 + ": " + trailer[i].1 + CRLF);
        if !written {
          ok := false;
        }
        assert before + LAST_CHUNK + text + line == before + LAST_CHUNK + (text + line);
      }
      assert trailer[..|trailer|] == trailer;
      written := WriteData(strm, CRLF);
      if !written {
        ok := false;
      }
      ghost var text := TrailerText(trailer);
      assert before + LAST_CHUNK + text + CRLF == before + (LAST_CHUNK + text + CRLF);
    }

    /** One call of a content provider. */
    method Provide(ops: seq<SinkOp>)
      requires ok && dataAvailable
      modifies this, strm
      ensures old(strm.sent) <= strm.sent
      ensures ok ==> strm.sent == old(strm.sent) + EmittedAll(ops) && dataAvailable == MoreAfter(ops)
    {
      hide Emitted;
      var i := 0;
      while i < |ops|
        invariant 0 <= i <= |ops| && old(strm.sent) <= strm.sent
        invariant ok ==> strm.sent == old(strm.sent) + EmittedAll(ops[..i]) && dataAvailable == MoreAfter(ops[..i])
      {
        assert Init(ops[..i + 1]) == ops[..i] && Last(ops[..i + 1]) == ops[i];
        assert old(strm.sent) + (EmittedAll(ops[..i]) + Emitted(ops[i]))
            == old(strm.sent) + EmittedAll(ops[..i]) + Emitted(ops[i]);
        match ops[i] {
          case Write(data) => Write(data);
          case Done(trailer) => DoneWithTrailer(trailer);
        }
        i := i + 1;
      }
      assert ops[..|ops|] == ops;
    }
  }

  datatype WriteError = Success | WriteFailed | Canceled

  /** Calls the provider while it has data, each time with the next of the given calls. The server starts to
      shut down before call `shutdown`. Success means that everything has been sent, unless it shut down. */
  method WriteContentChunked(strm: Wire, calls: seq<Call>, shutdown: nat) returns (error: WriteError, made: nat)
    modifies strm
    ensures made <= |calls| && old(strm.sent) <= strm.sent
    ensures error.Success? ==>
              && strm.sent == old(strm.sent) + Output(calls[..made])
              && (forall i :: 0 <= i < made ==> calls[i].goesOn)
              && (made < shutdown || |calls| <= shutdown ==> Output(calls[..made]) == Output(calls))
    ensures error.Canceled? ==> made > 0 && !calls[made - 1].goesOn
  {
    NoCallYet(calls);
    hide EmittedAll, MoreAfter, Output, AllGoOn;
    var sink := new DataSink(strm);
    made := 0;
    while sink.dataAvailable && made < |calls| && made < shutdown
      invariant made <= |calls| && made <= shutdown && sink.strm == strm && sink.ok && old(strm.sent) <= strm.sent
      invariant strm.sent == old(strm.sent) + Output(calls[..made])
      invariant forall i :: 0 <= i < made ==> calls[i].goesOn
      invariant sink.dataAvailable ==> AllGoOn(calls, made)
      invariant Output(calls) == Output(calls[..made]) + if sink.dataAvailable then Output(calls[made..]) else ""
      decreases |calls| - made
    {
      if * {
        return WriteFailed, made;
      }
      OneMoreCall(calls, made);
      ghost var before, now := Output(calls[..made]), EmittedAll(calls[made].ops);
      HandedOn(old(strm.sent), before + now, before, now);
      sink.Provide(calls[made].ops);
      made := made + 1;
      if !calls[made - 1].goesOn {
        return Canceled, made;
      }
      if !sink.ok {
        return WriteFailed, made;
      }
    }
    assert made == |calls| ==> calls[made..] == [] && calls[..made] == calls;
    return Success, made;
  }
}
