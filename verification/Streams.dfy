/** Buffered reading from a socket, and reading by lines on top of it. */
module Streams {
  import opened HttpText

  const READ_BUFFER_SIZE := 4096
  const MAX_LINE_LENGTH := 32768

  /** All the strings in one. */
  function Concat(pieces: seq<string>): string {
    if pieces == [] then "" else pieces[0] + Concat(pieces[1..])
  }

  /** The receiving end of a connection. Bytes arrive in portions nobody controls, and waiting for them can
      fail, by a timeout or an error, at any point, after which more bytes can arrive. */
  class Socket {
    /** What arrives before the next wait that fails, or before the end. */
    var incoming: string
    /** What arrives between the failing waits after that. */
    var later: seq<string>
    /** Whether the stream ends behind its last byte; otherwise every further wait fails. */
    const ends: bool

    constructor (bytes: string, later: seq<string>, ends: bool)
      ensures incoming == bytes && this.later == later && this.ends == ends
    {
      incoming, this.later, this.ends := bytes, later, ends;
    }

    /** A wait fails behind the bytes that arrive first. */
    predicate Fails()
      reads this
    {
      later != [] || !ends
    }

    function All(): string
      reads this
    {
      incoming + Concat(later)
    }

    /** Any number of the next bytes that fits. */
    method Recv(size: nat) returns (n: int, bytes: string)
      modifies this
      ensures -1 <= n <= size && |bytes| == if n < 0 then 0 else n
      ensures old(All()) == bytes + All()
      ensures n >= 0 ==> old(incoming) == bytes + incoming && later == old(later)
      ensures n < 0 ==> old(incoming) == "" && old(Fails()) && (later == old(later) ==> incoming == "")
      ensures size > 0 && n == 0 ==> incoming == "" && !Fails()
    {
      bytes := "";
      if incoming == "" {
        if later != [] {
          incoming, later := later[0], later[1..];
          return -1, "";
        }
        return if ends then 0 else -1, "";
      }
      n :| 0 <= n <= size && n <= |incoming| && (size > 0 ==> n > 0);
      bytes := incoming[..n];
      SplitAt(incoming, n, Concat(later));
      incoming := incoming[n..];
    }
  }

  lemma SplitAt(bytes: string, n: nat, rest: string)
    requires n <= |bytes|
    ensures bytes + rest == bytes[..n] + (bytes[n..] + rest)
  {
  }

  /** What has been handed out, and what is left, after one more portion. */
  lemma HandedOn(done: string, before: string, data: string, left: string)
    requires before == data + left
    ensures done + before == done + data + left
  {
  }

  class SocketStream {
    const sock: Socket
    const readBuff: array<char>
    var readBuffOff: nat
    var readBuffContentSize: nat

    ghost predicate Valid()
      reads this
    {
      readBuff.Length == READ_BUFFER_SIZE && readBuffOff <= readBuffContentSize <= READ_BUFFER_SIZE
    }

    ghost function Buffered(): string
      requires Valid()
      reads this, readBuff
    {
      readBuff[readBuffOff..readBuffContentSize]
    }

    /** What reading gives before a wait fails: what has been received but not handed out, then what is to come. */
    ghost function Pending(): string
      requires Valid()
      reads this, readBuff, sock
    {
      Buffered() + sock.incoming
    }

    /** Everything that reading can ever give. */
    ghost function All(): string
      requires Valid()
      reads this, readBuff, sock
    {
      Buffered() + sock.All()
    }

    /** What is left of the bytes in front of a failing wait, counted by what was to come behind it. */
    ghost function Left(later: seq<string>): string
      requires Valid()
      reads this, readBuff, sock
    {
      if sock.later == later then Pending() else ""
    }

    constructor (s: Socket)
      ensures Valid() && sock == s && Pending() == s.incoming && All() == s.All() && fresh(readBuff)
    {
      sock := s;
      readBuff := new char[READ_BUFFER_SIZE];
      readBuffOff, readBuffContentSize := 0, 0;
    }

    /** Hands out at most `size` bytes; nothing only at the end of the stream or when a wait fails. */
    method Read(size: nat) returns (n: int, data: string)
      requires Valid()
      modifies this, readBuff, sock
      ensures Valid() && -1 <= n <= size && |data| == if n < 0 then 0 else n
      ensures old(All()) == data + All()
      ensures n >= 0 ==> old(Pending()) == data + Pending() && sock.later == old(sock.later)
      ensures n < 0 ==> old(Pending()) == "" && old(sock.Fails()) && Left(old(sock.later)) == ""
      ensures size > 0 && n == 0 ==> Pending() == "" && !sock.Fails()
    {
      if readBuffOff < readBuffContentSize {
        n, data := TakeBuffered(size);
        return;
      }
      readBuffOff := 0;
      readBuffContentSize := 0;
      if size < READ_BUFFER_SIZE {
        n, data := Refill(size);
      } else {
        n, data := sock.Recv(size);
      }
    }

    method TakeBuffered(size: nat) returns (n: int, data: string)
      requires Valid() && readBuffOff < readBuffContentSize
      modifies this`readBuffOff
      ensures Valid() && 0 <= n <= size && |data| == n && (size > 0 ==> n > 0)
      ensures old(Buffered()) == data + Buffered() && old(Pending()) == data + Pending() && old(All()) == data + All()
    {
      ghost var before := Buffered();
      var remaining := readBuffContentSize - readBuffOff;
      n := if size <= remaining then size else remaining;
      data := readBuff[readBuffOff..readBuffOff + n];
      readBuffOff := readBuffOff + n;
      assert before == data + Buffered();
      assert data + Buffered() + sock.All() == data + (Buffered() + sock.All());
    }

    method Refill(size: nat) returns (n: int, data: string)
      requires Valid() && readBuffOff == readBuffContentSize == 0 && size < READ_BUFFER_SIZE
      modifies this`readBuffOff, this`readBuffContentSize, readBuff, sock
      ensures Valid() && -1 <= n <= size && |data| == if n < 0 then 0 else n
      ensures old(All()) == data + All()
      ensures n >= 0 ==> old(Pending()) == data + Pending() && sock.later == old(sock.later)
      ensures n < 0 ==> old(Pending()) == "" && old(sock.Fails()) && Left(old(sock.later)) == ""
      ensures size > 0 && n == 0 ==> Pending() == "" && !sock.Fails()
    {
      var bytes;
      n, bytes := sock.Recv(READ_BUFFER_SIZE);
      forall i | 0 <= i < |bytes| {
        readBuff[i] := bytes[i];
      }
      if n <= 0 {
        return n, "";
      } else if n <= size {
        return n, bytes;
      }
      assert readBuff[..n] == bytes;
      data := readBuff[..size];
      readBuffOff := size;
      readBuffContentSize := n;
      SplitAt(bytes, size, sock.incoming);
      SplitAt(bytes, size, sock.All());
      assert data == bytes[..size] && Buffered() == bytes[size..];
      n := size;
    }
  }

  /** Any sequence of reads hands out the stream in order and without loss, whenever waits fail in between. */
  method ReadAll(strm: SocketStream, sizes: seq<nat>) returns (all: string)
    requires strm.Valid()
    modifies strm, strm.readBuff, strm.sock
    ensures strm.Valid() && old(strm.All()) == all + strm.All()
  {
    hide SocketStream.All, SocketStream.Pending, SocketStream.Left;
    ghost var t := strm.All();
    all := "";
    var i := 0;
    while i < |sizes|
      invariant 0 <= i <= |sizes| && strm.Valid() && t == all + strm.All()
    {
      ghost var before := strm.All();
      var n, data := strm.Read(sizes[i]);
      HandedOn(all, before, data, strm.All());
      all := all + data;
      i := i + 1;
    }
  }

  // ----- Lines -----

  datatype NextLine = NextLine(ok: bool, text: string, rest: string)

  /** The next line of a stream: through the first line end, or all that is left if the stream ends there. A
      line that reaches the limit without ending gives nothing. */
  function LineOf(t: string, broken: bool): NextLine {
    var i := Find(t, CRLF);
    FindFirst(t, CRLF);
    if i < |t| && i + 2 <= MAX_LINE_LENGTH then NextLine(true, t[..i + 2], t[i + 2..])
    else if |t| >= MAX_LINE_LENGTH then NextLine(false, t[..MAX_LINE_LENGTH], t[MAX_LINE_LENGTH..])
    else NextLine(t != "" && !broken, t, "")
  }

  /** No line end within the first n bytes. */
  ghost predicate NoLineEnd(t: string, n: nat) {
    forall i :: 0 <= i && i + 2 <= n ==> !At(t, i, CRLF)
  }

  lemma NothingRead(t: string)
    ensures NoLineEnd(t, 0)
  {
  }

  lemma LineEndsHere(t: string, n: nat, broken: bool)
    requires n + 2 <= |t| && n + 2 <= MAX_LINE_LENGTH && NoLineEnd(t, n + 1) && t[n] == '\r' && t[n + 1] == '\n'
    ensures LineOf(t, broken) == NextLine(true, t[..n + 2], t[n + 2..])
  {
    assert t[n..n + 2] == CRLF;
    FindIs(t, CRLF, n);
  }

  lemma LineGoesOn(t: string, n: nat)
    requires n < |t| && NoLineEnd(t, n)
    requires n == 0 || t[n - 1] != '\r' || t[n] != '\n'
    ensures NoLineEnd(t, n + 1)
  {
    if n > 0 {
      assert t[n - 1..n + 1][0] == t[n - 1] && t[n - 1..n + 1][1] == t[n];
    }
  }

  lemma LineTooLong(t: string, broken: bool)
    requires |t| >= MAX_LINE_LENGTH && NoLineEnd(t, MAX_LINE_LENGTH)
    ensures LineOf(t, broken) == NextLine(false, t[..MAX_LINE_LENGTH], t[MAX_LINE_LENGTH..])
  {
    FindFirst(t, CRLF);
  }

  lemma LineAtEnd(t: string, broken: bool)
    requires |t| < MAX_LINE_LENGTH && NoLineEnd(t, |t|)
    ensures LineOf(t, broken) == NextLine(t != "" && !broken, t, "")
  {
    FindFirst(t, CRLF);
  }

  lemma AllRead(t: string, i: nat)
    requires i <= |t| && t[i..] == ""
    ensures i == |t| && t[..i] == t && t[..i] + "" == t[..i]
  {
  }

  lemma NextByte(t: string, i: nat, byte: string, rest: string)
    requires i <= |t| && t[i..] == byte + rest && |byte| == 1
    ensures i < |t| && byte[0] == t[i] && t[..i + 1] == t[..i] + [t[i]] && rest == t[i + 1..]
  {
    assert |t[i..]| == 1 + |rest|;
    assert t[i..][0] == t[i] && t[i..][1..] == t[i + 1..];
    assert (byte + rest)[1..] == rest;
  }

  /** Collects a line in a fixed buffer and, once that is full, in a growing one. */
  class StreamLineReader {
    const strm: SocketStream
    const fixedBuffer: array<char>
    var fixedBufferUsedSize: nat
    var growableBuffer: string

    ghost predicate Valid()
      reads this, strm, strm.readBuff
    {
      && strm.Valid() && fixedBuffer != strm.readBuff
      && fixedBufferUsedSize < fixedBuffer.Length
      && (growableBuffer != "" ==> fixedBufferUsedSize == fixedBuffer.Length - 1)
    }

    constructor (s: SocketStream, fixed: array<char>)
      requires s.Valid() && fixed != s.readBuff && fixed.Length > 0
      ensures Valid() && strm == s && fixedBuffer == fixed
    {
      strm, fixedBuffer := s, fixed;
      fixedBufferUsedSize, growableBuffer := 0, "";
    }

    /** ptr() and size() together. */
    function Text(): string
      requires fixedBufferUsedSize <= fixedBuffer.Length
      reads this, fixedBuffer
    {
      if growableBuffer == "" then fixedBuffer[..fixedBufferUsedSize] else growableBuffer
    }

    method EndWithCrlf() returns (r: bool)
      requires Valid()
      ensures r == (|Text()| >= 2 && Text()[|Text()| - 2..] == CRLF)
    {
      var t := Text();
      r := |t| >= 2 && t[|t| - 2] == '\r' && t[|t| - 1] == '\n';
    }

    method Append(c: char)
      requires Valid()
      modifies this`fixedBufferUsedSize, this`growableBuffer, fixedBuffer
      ensures Valid() && Text() == old(Text()) + [c]
    {
      if fixedBufferUsedSize < fixedBuffer.Length - 1 {
        fixedBuffer[fixedBufferUsedSize] := c;
        fixedBufferUsedSize := fixedBufferUsedSize + 1;
        fixedBuffer[fixedBufferUsedSize] := '\0';
      } else {
        if growableBuffer == "" {
          growableBuffer := fixedBuffer[..fixedBufferUsedSize];
        }
        growableBuffer := growableBuffer + [c];
      }
    }

    /** One round: a byte read is a byte appended. */
    method ReadByte() returns (n: int, byte: string)
      requires Valid()
      modifies this`fixedBufferUsedSize, this`growableBuffer, fixedBuffer, strm, strm.readBuff, strm.sock
      ensures Valid() && -1 <= n <= 1 && |byte| == (if n == 1 then 1 else 0) && Text() == old(Text()) + byte
      ensures old(strm.All()) == byte + strm.All()
      ensures n >= 0 ==> old(strm.Pending()) == byte + strm.Pending() && strm.sock.later == old(strm.sock.later)
      ensures n < 0 ==> old(strm.Pending()) == "" && old(strm.sock.Fails()) && strm.Left(old(strm.sock.later)) == ""
      ensures n == 0 ==> strm.Pending() == "" && !strm.sock.Fails()
    {
      hide Concat, Socket.All, SocketStream.All, SocketStream.Pending, SocketStream.Buffered;
      n, byte := strm.Read(1);
      if n > 0 {
        Append(byte[0]);
      }
    }

    method Getline() returns (ok: bool)
      requires Valid()
      modifies this`fixedBufferUsedSize, this`growableBuffer, fixedBuffer, strm, strm.readBuff, strm.sock
      ensures Valid() && old(strm.All()) == Text() + strm.All()
      ensures LineOf(old(strm.Pending()), old(strm.sock.Fails())) ==
              NextLine(ok, Text(), strm.Left(old(strm.sock.later)))
      ensures ok ==> strm.sock.later == old(strm.sock.later)
    {
      hide LineOf, NoLineEnd, Find, At, Socket.All, SocketStream.All, SocketStream.Pending, SocketStream.Buffered;
      NothingRead(strm.Pending());
      ghost var t, all, later, broken := strm.Pending(), strm.All(), strm.sock.later, strm.sock.Fails();
      fixedBufferUsedSize := 0;
      growableBuffer := "";
      var prev := '\0';
      var i := 0;
      while true
        invariant Valid() && 0 <= i <= |t| && i <= MAX_LINE_LENGTH && Text() == t[..i] && strm.Pending() == t[i..]
        invariant strm.sock.later == later && all == t[..i] + strm.All()
        invariant NoLineEnd(t, i) && prev == if i == 0 then '\0' else t[i - 1]
        decreases |t| - i
      {
        if |Text()| >= MAX_LINE_LENGTH {
          LineTooLong(t, broken);
          return false;
        }
        ghost var before := strm.All();
        var n, byte := ReadByte();
        HandedOn(t[..i], before, byte, strm.All());
        if n <= 0 {
          AllRead(t, i);
          LineAtEnd(t, n < 0);
        }
        if n < 0 {
          return false;
        } else if n == 0 {
          return i != 0;
        }
        NextByte(t, i, byte, strm.Pending());
        if prev == '\r' && byte[0] == '\n' {
          LineEndsHere(t, i - 1, broken);
          return true;
        }
        LineGoesOn(t, i);
        prev := byte[0];
        i := i + 1;
      }
    }
  }
}
