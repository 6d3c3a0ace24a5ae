/** What the multipart parser makes of any header line of an entry: content types, dispositions with any parameters,
    other fields, and lines that are no header lines. */
module Dispositions {
  import opened Lists
  import opened HttpText
  import opened HeaderFields
  import opened Multipart
  import Query

  // ----- Parameters -----

  /** A word as it is written, in quotes or bare. */
  datatype Word = Word(text: string, quoted: bool)

  /** What can stand between semicolons: a key and a value, with anything between two equals signs skipped, a key
      alone, or nothing but equals signs. */
  datatype Parameter = Assigned(key: Word, skipped: string, value: Word) | Bare(key: Word) | Signs(signs: string)

  function WordText(w: Word): string {
    if w.quoted then Quoted(w.text) else w.text
  }

  function ParameterText(p: Parameter): string {
    match p
    case Assigned(key, skipped, value) => WordText(key) + "=" + (skipped + WordText(value))
    case Bare(key) => WordText(key)
    case Signs(signs) => signs
  }

  /** Text that the parser does not split. */
  predicate Unsplit(s: string) {
    forall i :: 0 <= i < |s| ==> s[i] != ';' && s[i] != '='
  }

  predicate VisibleEnds(s: string) {
    s != "" && !IsBlank(s[0]) && !IsBlank(s[|s| - 1])
  }

  predicate GoodWord(w: Word) {
    && Unsplit(w.text)
    && (w.quoted || (VisibleEnds(w.text) && (|w.text| < 2 || w.text[0] != '"' || w.text[|w.text| - 1] != '"')))
  }

  predicate GoodParameter(p: Parameter) {
    match p
    case Assigned(key, skipped, value) =>
      && GoodWord(key) && GoodWord(value) && (skipped == "" || Last(skipped) == '=')
      && forall i :: 0 <= i < |skipped| ==> skipped[i] != ';'
    case Bare(key) => GoodWord(key)
    case Signs(signs) => VisibleEnds(signs) && forall i :: 0 <= i < |signs| ==> signs[i] == '=' || IsBlank(signs[i])
  }

  /** What the parser takes from a parameter. */
  function Taken(p: Parameter): seq<(string, string)> {
    match p
    case Assigned(key, _, value) => [(key.text, value.text)]
    case Bare(key) => [(key.text, "")]
    case Signs(_) => []
  }

  predicate GoodParameters(ps: seq<Parameter>) {
    forall i :: 0 <= i < |ps| ==> GoodParameter(ps[i])
  }

  function ParametersText(ps: seq<Parameter>): string {
    if ps == [] then ""
    else ParametersText(Init(ps)) + (if |ps| > 1 then "; " else "") + ParameterText(Last(ps))
  }

  function Texts(ps: seq<Parameter>): seq<string> {
    if ps == [] then [] else Texts(Init(ps)) + [ParameterText(Last(ps))]
  }

  /** The value of the first parameter with a key. */
  function FirstValue(ps: seq<Parameter>, key: string): Option<string> {
    if ps == [] then None
    else match FirstValue(Init(ps), key)
      case Some(v) => Some(v)
      case None => if Taken(Last(ps)) != [] && Taken(Last(ps))[0].0 == key then Some(Taken(Last(ps))[0].1) else None
  }

  lemma WordEnds(w: Word)
    requires GoodWord(w)
    ensures VisibleEnds(WordText(w)) && Unsplit(WordText(w)) && Unquote(WordText(w)) == w.text
  {
    var t := WordText(w);
    assert w.quoted ==> forall i :: 0 < i < |t| - 1 ==> t[i] == w.text[i - 1];
    assert w.quoted ==> t[1..|t| - 1] == w.text;
  }

  lemma ParameterEnds(p: Parameter)
    requires GoodParameter(p)
    ensures VisibleEnds(ParameterText(p)) && forall i :: 0 <= i < |ParameterText(p)| ==> ParameterText(p)[i] != ';'
  {
    hide WordText;
    match p
    case Assigned(key, skipped, value) =>
      WordEnds(key);
      WordEnds(value);
      var t, k, v := ParameterText(p), WordText(key), WordText(value);
      assert t == (k + "=" + skipped) + v;
      assert t[|t| - 1] == v[|v| - 1] && t[0] == k[0];
    case Bare(key) => WordEnds(key);
    case Signs(signs) =>
      forall i | 0 <= i < |signs|
        ensures signs[i] != ';'
      {
        assert signs[i] == '=' || IsBlank(signs[i]);
      }
  }

  lemma {:induction false} ParametersPieces(ps: seq<Parameter>)
    requires GoodParameters(ps)
    ensures Pieces(ParametersText(ps), ';') == Texts(ps)
  {
    hide Pieces, ParameterText, GoodParameter, VisibleEnds, Trim;
    if ps == [] {
      PiecesWhole("", ';');
      EmptyKept();
    } else {
      assert forall i :: 0 <= i < |ps| - 1 ==> Init(ps)[i] == ps[i];
      assert ps[|ps| - 1] == Last(ps);
      ParametersPieces(Init(ps));
      var t := ParameterText(Last(ps));
      ParameterEnds(Last(ps));
      PiecesWhole(t, ';');
      PiecesWhole(" " + t, ';');
      VisibleKept(t);
      if |ps| > 1 {
        Query.PiecesConcat(ParametersText(Init(ps)), " " + t, ';');
        assert ParametersText(ps) == ParametersText(Init(ps)) + [';'] + (" " + t);
      } else {
        assert ParametersText(ps) == t;
      }
    }
  }

  lemma EmptyKept()
    ensures Kept("") == []
  {
  }

  lemma VisibleKept(t: string)
    requires VisibleEnds(t)
    ensures Kept(t) == [t] && Kept(" " + t) == [t]
  {
    TrimVisible(t);
    BlanksSkipped(" ", t);
  }

  lemma WordPiece(w: Word)
    requires GoodWord(w)
    ensures Pieces(WordText(w), '=') == [WordText(w)]
  {
    hide Pieces, WordText;
    WordEnds(w);
    PiecesWhole(WordText(w), '=');
    VisibleKept(WordText(w));
  }

  lemma {:induction false} BlankPieces(s: string)
    requires forall i :: 0 <= i < |s| ==> s[i] == '=' || IsBlank(s[i])
    ensures Pieces(s, '=') == []
    decreases |s|
  {
    var i := IndexOf(s, '=');
    if i < |s| {
      PiecesAt(s, '=', i);
      BlankText(s[..i]);
      BlankPieces(s[i + 1..]);
    } else {
      PiecesWhole(s, '=');
      BlankText(s);
    }
  }

  lemma BlankText(s: string)
    requires forall i :: 0 <= i < |s| ==> IsBlank(s[i])
    ensures Kept(s) == []
  {
    assert s + "" == s;
    BlanksSkipped(s, "");
  }

  /** A parameter is read as its key and its last word, quotes aside. */
  lemma ParameterIsRead(p: Parameter)
    requires GoodParameter(p)
    ensures var parts := Pieces(ParameterText(p), '=');
            (if parts == [] then [] else [KeyAndValue(parts)]) == Taken(p)
  {
    hide Pieces, WordText, GoodWord, Unquote;
    match p
    case Assigned(key, skipped, value) =>
      WordPiece(key);
      WordPiece(value);
      WordEnds(key);
      WordEnds(value);
      SkippedPieces(skipped, value);
      Query.PiecesConcat(WordText(key), skipped + WordText(value), '=');
      assert WordText(key) + ['='] + (skipped + WordText(value)) == ParameterText(p);
    case Bare(key) =>
      WordPiece(key);
      WordEnds(key);
      NoQuotes();
    case Signs(signs) => BlankPieces(signs);
  }

  lemma NoQuotes()
    ensures Unquote("") == ""
  {
  }

  lemma SkippedPieces(skipped: string, value: Word)
    requires GoodWord(value) && (skipped == "" || Last(skipped) == '=')
    ensures var parts := Pieces(skipped + WordText(value), '='); parts != [] && Last(parts) == WordText(value)
  {
    hide Pieces, WordText, GoodWord;
    WordPiece(value);
    if skipped == "" {
      assert skipped + WordText(value) == WordText(value);
    } else {
      Query.PiecesConcat(Init(skipped), WordText(value), '=');
      assert Init(skipped) + ['='] + WordText(value) == skipped + WordText(value);
    }
  }

  lemma {:induction false} LookupLast(params: seq<(string, string)>, x: (string, string), key: string)
    ensures Multipart.Lookup(params + [x], key) ==
            if Multipart.Lookup(params, key).Some? then Multipart.Lookup(params, key)
            else if x.0 == key then Some(x.1) else None
  {
    if params == [] {
      assert ([] + [x])[1..] == [];
    } else {
      assert (params + [x])[1..] == params[1..] + [x];
      LookupLast(params[1..], x, key);
    }
  }

  lemma NextIsRead(texts: seq<string>, p: Parameter)
    requires GoodParameter(p)
    ensures ParamsOf(texts + [ParameterText(p)]) ==
            ParamsOf(texts) + if ParameterText(p) in texts then [] else Taken(p)
  {
    hide Pieces, ParameterText, GoodParameter, KeyAndValue, Taken;
    ParameterIsRead(p);
    var now := texts + [ParameterText(p)];
    assert Init(now) == texts && Last(now) == ParameterText(p);
  }

  /** Looking a key up gives the first parameter that has it, repeated texts skipped or not. */
  lemma {:induction false} ParametersAreRead(ps: seq<Parameter>, key: string)
    requires GoodParameters(ps)
    ensures Multipart.Lookup(ParamsOf(Texts(ps)), key) == FirstValue(ps, key)
  {
    hide Pieces, ParameterText, GoodParameter, KeyAndValue;
    if ps == [] {
    } else {
      var before, p := Init(ps), Last(ps);
      assert forall i :: 0 <= i < |before| ==> before[i] == ps[i];
      assert ps[|ps| - 1] == p;
      ParametersAreRead(before, key);
      NextIsRead(Texts(before), p);
      if ParameterText(p) in Texts(before) && Taken(p) != [] {
        SeenBefore(before, p);
      } else if Taken(p) != [] && ParameterText(p) !in Texts(before) {
        LookupLast(ParamsOf(Texts(before)), Taken(p)[0], key);
        assert Taken(p) == [Taken(p)[0]];
      }
    }
  }

  /** A text that has occurred gives a key that has occurred. */
  lemma {:induction false} SeenBefore(ps: seq<Parameter>, p: Parameter)
    requires GoodParameters(ps) && GoodParameter(p) && Taken(p) != [] && ParameterText(p) in Texts(ps)
    ensures FirstValue(ps, Taken(p)[0].0).Some?
  {
    hide Pieces, ParameterText, GoodParameter, KeyAndValue, Taken;
    assert forall i :: 0 <= i < |ps| - 1 ==> Init(ps)[i] == ps[i];
    assert ps[|ps| - 1] == Last(ps);
    if ParameterText(p) in Texts(Init(ps)) {
      SeenBefore(Init(ps), p);
    } else {
      assert ParameterText(p) == ParameterText(Last(ps));
      ParameterIsRead(p);
      ParameterIsRead(Last(ps));
    }
  }

  // ----- Disposition lines -----

  /** A disposition line: names in letters of either case, any blanks, any parameters. */
  ghost predicate IsFormLine(line: string, ps: seq<Parameter>) {
    exists name, left, form, between ::
      && Respelled(name, "Content-Disposition") && Respelled(form, "form-data;") && AllBlank(left) && AllBlank(between)
      && line == name + ":" + left + form + between + ParametersText(ps)
  }

  lemma FormParams(name: string, left: string, form: string, between: string, text: string)
    requires Respelled(name, "Content-Disposition") && Respelled(form, "form-data;")
    requires AllBlank(left) && AllBlank(between) && (text == "" || !IsBlank(text[0]))
    ensures DispositionParams(name + ":" + left + form + between + text) == Some(text)
  {
    hide SameLetter, StartsWithNoCase, TrimLeft;
    var line, value := name + ":" + left + form + between + text, form + between + text;
    Colon(name, "Content-Disposition");
    assert line == name + ":" + (left + value);
    StartsWithRespelled(name + ":", DISPOSITION, left + value);
    FirstLetter(form, "form-data;");
    assert value[0] == form[0];
    BlanksSkipped(left, value);
    assert value == form + (between + text);
    StartsWithRespelled(form, FORM_DATA, between + text);
    BlanksSkipped(between, text);
  }

  lemma Colon(s: string, t: string)
    requires Respelled(s, t)
    ensures Respelled(s + ":", t + ":")
  {
  }

  lemma FirstLetter(s: string, t: string)
    requires Respelled(s, t) && t != "" && 'a' <= t[0] <= 'z'
    ensures s != "" && !IsBlank(s[0])
  {
  }

  /** What a disposition line does: without a name it is refused; a coded file name overrides a plain one, and one
      that is not in UTF-8 is refused. */
  function FormLineResult(part: Part, ps: seq<Parameter>): LineResult {
    match FirstValue(ps, "name")
    case None => LineResult(part, false)
    case Some(name) =>
      var named := part.(name := name,
                         filename := match FirstValue(ps, "filename") case Some(f) => f case None => part.filename);
      match FirstValue(ps, "filename*")
      case None => LineResult(named, true)
      case Some(f) =>
        if |f| > 7 && Respelled(f[..7], "UTF-8''") then
          LineResult(named.(filename := Query.Decode(f[7..], false)), true)
        else LineResult(named, false)
  }

  lemma FormLineIsRead(part: Part, line: string, ps: seq<Parameter>)
    requires IsFormLine(line, ps) && IsHeaderLine(line) && GoodParameters(ps)
    ensures ReadLine(part, line) == FormLineResult(part, ps)
  {
    hide SameLetter, StartsWithNoCase, IsHeaderLine, Pieces, ParamsOf, ParametersText, Texts, GoodParameter, AllBlank,
         DispositionParams, Respelled;
    var name, left, form, between :|
      && Respelled(name, "Content-Disposition") && Respelled(form, "form-data;") && AllBlank(left) && AllBlank(between)
      && line == name + ":" + left + form + between + ParametersText(ps);
    TextStartsVisibly(ps);
    FormParams(name, left, form, between, ParametersText(ps));
    NotATypeLine(name, left + form + between + ParametersText(ps), line);
    ParametersPieces(ps);
    ParametersAreRead(ps, "name");
    ParametersAreRead(ps, "filename");
    ParametersAreRead(ps, "filename*");
    if FirstValue(ps, "filename*").Some? {
      var f := FirstValue(ps, "filename*").value;
      assert f + "" == f;
      StartsWithRespelled(f, UTF_8, "");
    }
  }

  lemma {:induction false} TextStartsVisibly(ps: seq<Parameter>)
    requires GoodParameters(ps)
    ensures ParametersText(ps) == "" || !IsBlank(ParametersText(ps)[0])
  {
    if ps == [] {
    } else {
      assert forall i :: 0 <= i < |ps| - 1 ==> Init(ps)[i] == ps[i];
      TextStartsVisibly(Init(ps));
      ParameterEnds(ps[|ps| - 1]);
    }
  }

  lemma NotATypeLine(name: string, rest: string, line: string)
    requires Respelled(name, "Content-Disposition") && line == name + ":" + rest
    ensures !StartsWithNoCase(line, CONTENT_TYPE)
  {
    assert line[8] == name[8] && SameLetter(name[8], 'D');
    SameLetterIff(name[8], 'D');
    assert CONTENT_TYPE[8] == 'T';
  }

  // ----- File names in UTF-8 -----

  /** A file name in percent codes overrides a plain one, and is read back as it was. */
  lemma CodedNameReadsBack(part: Part, line: string, ps: seq<Parameter>, filename: string)
    requires IsFormLine(line, ps) && IsHeaderLine(line) && GoodParameters(ps)
    requires FirstValue(ps, "name").Some? && Query.IsBytes(filename) && filename != ""
    requires FirstValue(ps, "filename*") == Some("UTF-8''" + Query.Encode(filename))
    ensures ReadLine(part, line) ==
            LineResult(part.(name := FirstValue(ps, "name").value, filename := filename), true)
  {
    hide SameLetter, IsHeaderLine, GoodParameter, IsFormLine, ReadLine, Query.Encode, Query.Decode;
    var f := "UTF-8''" + Query.Encode(filename);
    FormLineIsRead(part, line, ps);
    Query.DecodeEncode(filename, false);
    NothingEncoded(filename);
    assert f[..7] == "UTF-8''" && f[7..] == Query.Encode(filename);
    SameText("UTF-8''");
  }

  lemma NothingEncoded(s: string)
    ensures Query.Encode(s) == "" ==> s == ""
  {
  }

  lemma SameText(s: string)
    ensures Respelled(s, s)
  {
  }

  // ----- Other lines -----

  /** A content type, blanks at its ends aside. */
  lemma TypeLineIsRead(part: Part, name: string, left: string, value: string, right: string)
    requires Respelled(name, "Content-Type") && IsFieldContent(value) && AllBlank(left) && AllBlank(right)
    requires IsToken(name)
    ensures ReadLine(part, name + ":" + left + value + right) == LineResult(part.(contentType := value), true)
  {
    hide SameLetter, StartsWithNoCase, IsHeaderLine, IsFieldContent, IsToken, Reads, Trim;
    var line := name + ":" + left + value + right;
    ReadsSo(line, name, left, value, right);
    HeaderLineIff(line);
    Colon(name, "Content-Type");
    assert line == name + ":" + (left + value + right);
    StartsWithRespelled(name + ":", CONTENT_TYPE, left + value + right);
    TrimmedField(left, value, right);
  }

  lemma TrimmedField(left: string, value: string, right: string)
    requires IsFieldContent(value) && AllBlank(left) && AllBlank(right)
    ensures Trim(left + value + right) == value
  {
    TrimBlanks(left, value, right);
  }

  /** Fields with other names leave the entry as it is. */
  lemma OtherLineIsIgnored(part: Part, line: string, name: string, value: string)
    requires Reads(line, name, value)
    requires !Respelled(name, "Content-Type") && !Respelled(name, "Content-Disposition")
    ensures ReadLine(part, line) == LineResult(part, true)
  {
    hide SameLetter, StartsWithNoCase, IsHeaderLine, IsFieldContent, IsToken, Trim;
    HeaderLineIff(line);
    var left, right :| AllBlank(left) && AllBlank(right) && line == name + ":" + left + value + right;
    var rest := left + value + right;
    assert line == name + ":" + rest;
    FieldNamesAreTokens();
    AllTokenChars(name);
    AllTokenChars("Content-Type");
    AllTokenChars("Content-Disposition");
    if StartsWithNoCase(line, CONTENT_TYPE) {
      NameOfLine(name, "Content-Type", rest);
    } else if StartsWithNoCase(line, DISPOSITION) {
      NameOfLine(name, "Content-Disposition", rest);
    }
  }

  /** Only a name that is spelled like it makes a line start with a field name and its colon. */
  lemma NameOfLine(name: string, field: string, rest: string)
    requires IsToken(name) && (forall i :: 0 <= i < |field| ==> IsTokenChar(field[i]))
    requires StartsWithNoCase(name + ":" + rest, field + ":")
    ensures Respelled(name, field)
  {
    hide SameLetter;
    var line, start := name + ":" + rest, field + ":";
    assert line + "" == line;
    StartsWithRespelled(line, start, "");
    ColonIsItself(line[|field|]);
    forall i | 0 <= i < |field|
      ensures SameLetter(line[i], field[i]) && line[i] != ':'
    {
      assert SameLetter(line[..|start|][i], start[i]);
      ColonIsItself(field[i]);
      ColonIsSymmetric(line[i], field[i]);
    }
    assert SameLetter(line[..|start|][|field|], start[|field|]);
    AllTokenChars(name);
    ColonBehind(name, rest);
    IndexOfIs(line, ':', |field|);
  }

  lemma ColonIsItself(c: char)
    ensures SameLetter(c, ':') <==> c == ':'
    ensures IsTokenChar(c) ==> c != ':'
  {
  }

  lemma ColonIsSymmetric(a: char, b: char)
    ensures SameLetter(a, b) && b != ':' ==> a != ':'
  {
  }

  lemma AllTokenChars(s: string)
    requires IsToken(s)
    ensures (forall i :: 0 <= i < |s| ==> IsTokenChar(s[i])) && forall i :: 0 <= i < |s| ==> s[i] != ':'
  {
    forall i | 0 <= i < |s|
      ensures s[i] != ':'
    {
      ColonIsItself(s[i]);
    }
  }

  lemma FieldNamesAreTokens()
    ensures IsToken("Content-Type") && IsToken("Content-Disposition")
    ensures CONTENT_TYPE == "Content-Type" + ":" && DISPOSITION == "Content-Disposition" + ":"
  {
    assert "!#$%&'*+-.^_`|~"[8] == '-';
  }

  /** A disposition of another kind leaves the entry as it is. */
  lemma OtherDispositionIsIgnored(part: Part, line: string, name: string, value: string)
    requires Reads(line, name, value) && Respelled(name, "Content-Disposition")
    requires |value| < 10 || !Respelled(value[..10], "form-data;")
    ensures ReadLine(part, line) == LineResult(part, true)
  {
    hide SameLetter, StartsWithNoCase, IsHeaderLine, IsFieldContent, IsToken, TrimLeft, Respelled;
    HeaderLineIff(line);
    var left, right :| AllBlank(left) && AllBlank(right) && line == name + ":" + left + value + right;
    Colon(name, "Content-Disposition");
    assert line == name + ":" + (left + (value + right));
    StartsWithRespelled(name + ":", DISPOSITION, left + (value + right));
    NotATypeLine(name, left + value + right, line);
    NotFormData(left, value, right);
  }

  lemma NotFormData(left: string, value: string, right: string)
    requires IsFieldContent(value) && AllBlank(left) && AllBlank(right)
    requires |value| < 10 || !Respelled(value[..10], "form-data;")
    ensures !StartsWithNoCase(TrimLeft(left + (value + right)), FORM_DATA)
  {
    hide SameLetter, StartsWithNoCase, TrimLeft;
    if value == "" {
      assert left + (value + right) == (left + right) + "";
      BlanksSkipped(left + right, "");
      ShortText("");
    } else {
      BlanksSkipped(left, value + right);
      var t := value + right;
      assert t + "" == t;
      StartsWithRespelled(t, FORM_DATA, "");
      if |value| < 10 && |t| >= 10 {
        assert t[|value|] == right[0];
        BlankIsNoLetter(t[..10], |value|);
      } else if |value| >= 10 {
        assert t[..10] == value[..10];
      }
    }
  }

  lemma ShortText(s: string)
    requires |s| < 10
    ensures !StartsWithNoCase(s, FORM_DATA)
  {
  }

  lemma BlankIsNoLetter(s: string, i: nat)
    requires |s| == 10 && i < 10 && (s[i] == ' ' || s[i] == '\t')
    ensures !Respelled(s, "form-data;")
  {
    assert !SameLetter(s[i], "form-data;"[i]);
  }

  /** A line that is no header line is refused and changes nothing. */
  lemma MalformedLineIsRefused(part: Part, line: string)
    requires forall name, value :: !Reads(line, name, value)
    ensures ReadLine(part, line) == LineResult(part, false)
  {
    hide Reads;
    HeaderLineIff(line);
  }
}
