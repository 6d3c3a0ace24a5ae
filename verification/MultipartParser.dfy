/** The parser object: a buffer worked on in place, and the loop over its states. */
module MultipartParser {
  import opened Lists
  import opened HeaderFields
  import opened HttpText
  import opened Multipart
  import Query

  // ----- Parameters -----

  method ParseDispositionParams(s: string) returns (params: seq<(string, string)>)
    ensures params == ParamsOf(Pieces(s, ';'))
  {
    hide Pieces, ParamsOf;
    var texts := Split(s, ';');
    var cache: set<string> := {};
    params := [];
    NoParams();
    assert texts[..0] == [];
    var i := 0;
    while i < |texts|
      invariant 0 <= i <= |texts| && params == ParamsOf(texts[..i]) && cache == Elements(texts[..i])
    {
      var kv := texts[i];
      NextParam(texts, i);
      if kv !in cache {
        var parts := Split(kv, '=');
        if parts != [] {
          params := params + [KeyAndValue(parts)];
        }
      }
      cache := cache + {kv};
      i := i + 1;
    }
    assert texts[..|texts|] == texts;
  }

  lemma NoParams()
    ensures ParamsOf([]) == [] && Elements<string>([]) == {}
  {
  }

  lemma NextParam(texts: seq<string>, i: nat)
    requires i < |texts|
    ensures Elements(texts[..i + 1]) == Elements(texts[..i]) + {texts[i]}
    ensures var kv := texts[i];
            ParamsOf(texts[..i + 1]) == ParamsOf(texts[..i])
              + if kv in Elements(texts[..i]) || Pieces(kv, '=') == [] then [] else [KeyAndValue(Pieces(kv, '='))]
  {
    hide Pieces;
    var now := texts[..i + 1];
    assert Init(now) == texts[..i] && Last(now) == texts[i];
    assert now == texts[..i] + [texts[i]];
  }

  // ----- The parser -----

  /** What the state loop does next. */
  datatype Verdict = GoOn | Return(ok: bool)

  /** A round of the loop as the specification has it. */
  ghost predicate Does(s: Step, verdict: Verdict, events: seq<Event>, parser: Parser) {
    && s.parser == parser && s.events == events
    && verdict == if s.More? then GoOn else Return(s.ok)
  }

  class MultipartFormDataParser {
    var boundary: string
    var dashBoundaryCrlf: string
    var crlfDashBoundary: string
    var state: Phase
    var isValid: bool
    var file: Part
    var buf: array<char>
    var spos: nat
    var epos: nat

    ghost predicate Valid()
      reads this, buf
    {
      && spos <= epos <= buf.Length
      && dashBoundaryCrlf == OpeningLine(boundary) && crlfDashBoundary == Delimiter(boundary)
    }

    ghost function Contents(): string
      requires Valid()
      reads this, buf
    {
      buf[spos..epos]
    }

    ghost function View(): Parser
      requires Valid()
      reads this, buf
    {
      Parser(state, Contents(), file, isValid)
    }

    constructor (b: string)
      ensures Valid() && fresh(buf) && boundary == b && View() == FRESH
    {
      boundary := b;
      dashBoundaryCrlf := DASH + b + CRLF;
      crlfDashBoundary := CRLF + DASH + b;
      state, isValid, file := Opening, false, NO_PART;
      buf := new char[0];
      spos, epos := 0, 0;
    }

    // ----- The buffer -----

    function BufSize(): int
      reads this
    {
      epos - spos
    }

    method BufHead(l: nat) returns (s: string)
      requires Valid() && l <= BufSize()
      ensures s == Contents()[..l]
    {
      return buf[spos..spos + l];
    }

    method StartWith(pos: nat, b: string) returns (ok: bool)
      requires Valid() && spos <= pos <= epos
      ensures ok == At(Contents(), pos - spos, b)
    {
      ghost var t, k := Contents(), pos - spos;
      if epos - pos < |b| {
        return false;
      }
      var i := 0;
      while i < |b|
        invariant 0 <= i <= |b| && forall j :: 0 <= j < i ==> t[k + j] == b[j]
      {
        assert t[k + i] == buf[pos + i];
        if buf[pos + i] != b[i] {
          assert t[k..k + |b|][i] != b[i];
          return false;
        }
        i := i + 1;
      }
      assert t[k..k + |b|] == b;
      return true;
    }

    /** The first occurrence of s in the buffer, or its size. */
    method BufFind(s: string) returns (r: nat)
      requires Valid() && s != ""
      ensures r == Find(Contents(), s) && r <= |Contents()|
    {
      ghost var t := Contents();
      FindFirst(t, s);
      var c := s[0];
      var off := spos;
      while off < epos
        invariant spos <= off <= epos
        invariant NoneBefore(t, s, off - spos)
        decreases epos - off
      {
        var pos := off;
        while true
          invariant off <= pos <= epos && NoneBefore(t, s, pos - spos)
          decreases epos - pos
        {
          if pos == epos {
            FindIs(t, s, epos - spos);
            return epos - spos;
          }
          if buf[pos] == c {
            break;
          }
          NotHere(t, s, pos - spos);
          pos := pos + 1;
        }
        if |s| > epos - pos {
          NoRoom(t, s, pos - spos);
          return epos - spos;
        }
        var found := StartWith(pos, s);
        if found {
          FindIs(t, s, pos - spos);
          return pos - spos;
        }
        off := pos + 1;
      }
      FindIs(t, s, epos - spos);
      return epos - spos;
    }

    method BufErase(size: nat)
      requires Valid() && size <= BufSize()
      modifies this`spos
      ensures Valid() && View() == old(View()).(buf := old(Contents())[size..])
    {
      ghost var t := Contents();
      spos := spos + size;
      assert Contents() == t[size..];
    }

    /** Moves what is left to the front, makes room, and appends. */
    method BufAppend(data: string)
      requires Valid()
      modifies this`buf, this`spos, this`epos, buf
      ensures Valid() && (buf == old(buf) || fresh(buf))
      ensures View() == old(View()).(buf := old(Contents()) + data)
    {
      ghost var before := Contents();
      var remaining := epos - spos;
      MoveToFront(remaining);
      spos := 0;
      epos := remaining;
      if remaining + |data| > buf.Length {
        Resize(remaining + |data|);
      }
      CopyIn(data);
      assert Contents() == before + data;
    }

    /** Copies data behind what the buffer holds. */
    method CopyIn(data: string)
      requires Valid() && spos == 0 && epos + |data| <= buf.Length
      modifies this`epos, buf
      ensures Valid() && epos == old(epos) + |data|
      ensures Contents() == old(Contents()) + data
    {
      ghost var before := Contents();
      var i := 0;
      while i < |data|
        invariant 0 <= i <= |data| && epos == old(epos)
        invariant forall j :: 0 <= j < epos ==> buf[j] == before[j]
        invariant forall j :: 0 <= j < i ==> buf[epos + j] == data[j]
      {
        buf[epos + i] := data[i];
        i := i + 1;
      }
      epos := epos + |data|;
      assert Contents() == before + data;
    }

    method MoveToFront(remaining: nat)
      requires Valid() && remaining == epos - spos
      modifies buf
      ensures buf[..remaining] == old(Contents())
    {
      ghost var before := Contents();
      if remaining > 0 && spos > 0 {
        var i := 0;
        while i < remaining
          invariant 0 <= i <= remaining && forall j :: 0 <= j < i ==> buf[j] == before[j]
          invariant forall j :: i <= j < remaining ==> buf[spos + j] == before[j]
        {
          buf[i] := buf[spos + i];
          i := i + 1;
        }
      }
      assert buf[..remaining] == before;
    }

    method Resize(size: nat)
      requires Valid() && buf.Length <= size
      modifies this`buf
      ensures fresh(buf) && buf.Length == size && Valid()
      ensures buf[..old(buf.Length)] == old(buf[..])
    {
      var bigger := new char[size];
      var from, i := buf, 0;
      while i < from.Length
        invariant 0 <= i <= from.Length && forall j :: 0 <= j < i ==> bigger[j] == from[j]
        invariant buf == from && from[..] == old(buf[..])
      {
        bigger[i] := from[i];
        i := i + 1;
      }
      buf := bigger;
      assert buf[..from.Length] == from[..];
    }

    // ----- Header lines -----

    method ReadHeaderLine(header: string) returns (ok: bool)
      requires Valid()
      modifies this`file
      ensures LineResult(file, ok) == ReadLine(old(file), header)
    {
      hide IsHeaderLine, Pieces, ParamsOf, Trim;
      var parsed := ParseHeader(header);
      if parsed.None? {
        return false;
      }
      if StartsWithNoCase(header, CONTENT_TYPE) {
        var value := TrimCopy(header[|CONTENT_TYPE|..]);
        file := file.(contentType := value);
        return true;
      }
      var text := DispositionParams(header);
      if text.Some? {
        var params := ParseDispositionParams(text.value);
        var it := Lookup(params, "name");
        if it.Some? {
          file := file.(name := it.value);
        } else {
          return false;
        }
        it := Lookup(params, "filename");
        if it.Some? {
          file := file.(filename := it.value);
        }
        it := Lookup(params, "filename*");
        if it.Some? {
          if StartsWithNoCase(it.value, UTF_8) && |it.value| > |UTF_8| {
            var decoded := Query.DecodeUrl(it.value[|UTF_8|..], false);
            file := file.(filename := decoded);
          } else {
            return false;
          }
        }
      }
      return true;
    }

    method ReadHeaders() returns (verdict: Verdict, events: seq<Event>)
      requires Valid() && state == Headers
      modifies this`spos, this`state, this`file, this`isValid
      ensures Valid() && Does(HeaderLines(old(View())), verdict, events, View())
    {
      hide HeaderLines, ReadLine, Find;
      var pos := BufFind(CRLF);
      while pos < BufSize()
        invariant Valid() && state == Headers && pos == Find(Contents(), CRLF)
        invariant HeaderLines(View()) == HeaderLines(old(View()))
        decreases |Contents()|
      {
        HeaderLinesRound(View());
        if pos == 0 {
          events := [Header(file)];
          BufErase(|CRLF|);
          state := Body;
          return GoOn, events;
        }
        var header := BufHead(pos);
        var ok := ReadHeaderLine(header);
        if !ok {
          isValid := false;
          return Return(false), [];
        }
        BufErase(pos + |CRLF|);
        pos := BufFind(CRLF);
      }
      HeaderLinesRound(View());
      return Return(true), [];
    }

    // ----- The state loop -----

    method Round() returns (verdict: Verdict, events: seq<Event>)
      requires Valid()
      modifies this`spos, this`state, this`file, this`isValid
      ensures Valid() && Does(StepOf(boundary, old(View())), verdict, events, View())
    {
      events := [];
      match state
      case Opening =>
        var at := BufFind(dashBoundaryCrlf);
        BufErase(at);
        if |dashBoundaryCrlf| > BufSize() {
          return Return(true), [];
        }
        var ok := StartWith(spos, dashBoundaryCrlf);
        if !ok {
          return Return(false), [];
        }
        BufErase(|dashBoundaryCrlf|);
        state := NewEntry;
        return GoOn, [];
      case NewEntry =>
        file := NO_PART;
        state := Headers;
        return GoOn, [];
      case Headers =>
        var pos := BufFind(CRLF);
        if pos > HEADER_MAX_LENGTH {
          return Return(false), [];
        }
        verdict, events := ReadHeaders();
      case Body =>
        verdict, events := ReadBody();
      case Boundary =>
        verdict := ReadBoundary();
    }

    method ReadBody() returns (verdict: Verdict, events: seq<Event>)
      requires Valid() && state == Body
      modifies this`spos, this`state
      ensures Valid() && Does(BodyStep(boundary, old(View())), verdict, events, View())
    {
      FindFirst(Contents(), crlfDashBoundary);
      if |crlfDashBoundary| > BufSize() {
        return Return(true), [];
      }
      var pos := BufFind(crlfDashBoundary);
      if pos < BufSize() {
        var bytes := BufHead(pos);
        events := [Content(bytes)];
        BufErase(pos + |crlfDashBoundary|);
        state := Boundary;
        return GoOn, events;
      }
      var len := BufSize() - |crlfDashBoundary|;
      events := [];
      if len > 0 {
        var bytes := BufHead(len);
        events := [Content(bytes)];
        BufErase(len);
      } else {
        assert Contents()[0..] == Contents();
      }
      return Return(true), events;
    }

    method ReadBoundary() returns (verdict: Verdict)
      requires Valid() && state == Boundary
      modifies this`spos, this`state, this`isValid
      ensures Valid() && Does(BoundaryStep(old(View())), verdict, [], View())
    {
      hide BoundaryStep, At;
      ghost var p := View();
      BoundaryCases(p);
      if |CRLF| > BufSize() {
        return Return(true);
      }
      var next := StartWith(spos, CRLF);
      if next {
        BufErase(|CRLF|);
        state := NewEntry;
        assert View() == p.(buf := p.buf[2..], phase := NewEntry);
        return GoOn;
      }
      if |DASH| > BufSize() {
        return Return(true);
      }
      var last := StartWith(spos, DASH);
      if last {
        BufErase(|DASH|);
        isValid := true;
        BufErase(BufSize());
        assert View() == p.(buf := "", valid := true);
        return GoOn;
      }
      return Return(true);
    }

    /** One call with the bytes that have arrived. */
    method Parse(data: string) returns (ok: bool, events: seq<Event>)
      requires Valid()
      modifies this, buf
      ensures Valid() && boundary == old(boundary) && (buf == old(buf) || fresh(buf))
      ensures var r := Feed(boundary, old(View()), data); View() == r.parser && events == r.events && ok == r.ok
    {
      BufAppend(data);
      ghost var all := Run(boundary, View());
      events := [];
      while BufSize() > 0
        invariant Valid() && boundary == old(boundary) && (buf == old(buf) || fresh(buf))
        invariant var r := Run(boundary, View()); all == Result(r.parser, events + r.events, r.ok)
        decreases |Contents()|, Rank(state)
      {
        if StepOf(boundary, View()).More? {
          StepShrinks(boundary, View());
        }
        ghost var before := View();
        var verdict, more := Round();
        RunOnce(boundary, before, events);
        events := events + more;
        if verdict.Return? {
          return verdict.ok, events;
        }
      }
      return true, events;
    }
  }

  /** One header line, or the end of them. */
  lemma HeaderLinesRound(p: Parser)
    ensures var pos := Find(p.buf, CRLF);
            && pos <= |p.buf| && (pos < |p.buf| ==> pos + 2 <= |p.buf|)
            && (pos == |p.buf| ==> HeaderLines(p) == Stop(p, [], true))
            && (pos < |p.buf| && pos == 0 ==>
                  HeaderLines(p) == More(p.(buf := p.buf[2..], phase := Body), [Header(p.part)]))
            && (0 < pos < |p.buf| ==>
                  var r := ReadLine(p.part, p.buf[..pos]);
                  HeaderLines(p) == if r.ok then HeaderLines(p.(buf := p.buf[pos + 2..], part := r.part))
                                    else Stop(p.(part := r.part, valid := false), [], false))
  {
    hide ReadLine;
    FindFirst(p.buf, CRLF);
  }

  lemma BoundaryCases(p: Parser)
    ensures |p.buf| < 2 ==> BoundaryStep(p) == Stop(p, [], true)
    ensures At(p.buf, 0, CRLF) ==> BoundaryStep(p) == More(p.(buf := p.buf[2..], phase := NewEntry), [])
    ensures |p.buf| >= 2 && !At(p.buf, 0, CRLF) ==>
              BoundaryStep(p) == if At(p.buf, 0, DASH) then More(p.(buf := "", valid := true), [])
                else Stop(p, [], true)
  {
  }

  /** A run is its first round, then the rest. */
  lemma RunOnce(boundary: string, p: Parser, before: seq<Event>)
    requires p.buf != ""
    ensures var s, r := StepOf(boundary, p), Run(boundary, p);
            Result(r.parser, before + r.events, r.ok) ==
              if s.Stop? then Result(s.parser, before + s.events, s.ok)
              else
                var next := Run(boundary, s.parser);
                Result(next.parser, before + s.events + next.events, next.ok)
  {
    var s := StepOf(boundary, p);
    if s.More? {
      assert before + (s.events + Run(boundary, s.parser).events) == before + s.events + Run(boundary, s.parser).events;
    }
  }

  lemma NotHere(t: string, s: string, k: nat)
    requires s != "" && k < |t| && t[k] != s[0] && NoneBefore(t, s, k)
    ensures NoneBefore(t, s, k + 1)
  {
    if k + |s| <= |t| {
      assert t[k..k + |s|][0] == t[k];
    }
  }

  lemma NoRoom(t: string, s: string, k: nat)
    requires s != "" && k < |t| && k + |s| > |t| && NoneBefore(t, s, k)
    ensures Find(t, s) == |t|
  {
    FindIs(t, s, |t|);
  }
}
