/** Reading back the header lines that the serializer writes. */
module MultipartHeaders {
  import opened HeaderFields
  import opened Lists
  import opened HttpText
  import opened Multipart
  import Query

  /** Text that can stand between the quotes of a disposition parameter: the parser splits at ';' and '='. */
  predicate PlainText(s: string) {
    forall i :: 0 <= i < |s| ==> (IsFieldVChar(s[i]) || IsBlank(s[i])) && s[i] != ';' && s[i] != '='
  }

  predicate AllField(s: string) {
    forall i :: 0 <= i < |s| ==> IsFieldVChar(s[i]) || IsBlank(s[i])
  }

  function Param(key: string, text: string): string { key + "=" + Quoted(text) }

  function NameParam(item: Item): string { Param("name", item.name) }

  function FilenameParam(item: Item): string { Param("filename", item.filename) }

  function ParamsText(item: Item): string {
    NameParam(item) + if item.filename != "" then "; " + FilenameParam(item) else ""
  }

  function DispositionValue(item: Item): string { FORM_DATA + (" " + ParamsText(item)) }

  const DISPOSITION_NAME := "Content-Disposition"
  const TYPE_NAME := "Content-Type"

  lemma DispositionLineIs(item: Item)
    ensures DispositionLine(item) == DISPOSITION + (" " + DispositionValue(item))
    ensures DispositionLine(item) == DISPOSITION_NAME + ":" + " " + DispositionValue(item)
  {
  }

  predicate PlainItem(item: Item) {
    PlainText(item.name) && PlainText(item.filename) && IsFieldContent(item.contentType)
  }

  // ----- Header lines are well formed -----

  lemma SkipPrefix(s: string, prefix: string, rest: string)
    requires s == prefix + rest
    ensures StartsWithNoCase(s, prefix) && s[|prefix|..] == rest
  {
  }

  /** A text without separators whose ends are visible is a single piece. */
  lemma WholePiece(s: string, d: char)
    requires s != "" && !IsBlank(s[0]) && !IsBlank(s[|s| - 1])
    requires forall i :: 0 <= i < |s| ==> s[i] != d
    ensures Pieces(s, d) == [s]
  {
    PiecesWhole(s, d);
    TrimVisible(s);
  }

  lemma TokenNames()
    ensures IsToken(DISPOSITION_NAME) && IsToken(TYPE_NAME)
  {
    assert IsTokenChar('C') && IsTokenChar('o') && IsTokenChar('n') && IsTokenChar('t') && IsTokenChar('e');
    assert IsTokenChar('D') && IsTokenChar('i') && IsTokenChar('s') && IsTokenChar('p') && IsTokenChar('T')
           && IsTokenChar('y');
    assert IsTokenChar('-') by {
      assert "!#$%&'*+-.^_`|~"[8] == '-';
    }
  }

  lemma ConcatField(a: string, b: string)
    requires AllField(a) && AllField(b)
    ensures AllField(a + b)
  {
  }

  lemma ParamField(key: string, text: string)
    requires AllField(key) && PlainText(text)
    ensures AllField(Param(key, text)) && Last(Param(key, text)) == '"'
  {
  }

  lemma ParamsTextField(item: Item)
    requires PlainItem(item)
    ensures ParamsText(item) != "" && AllField(ParamsText(item)) && Last(ParamsText(item)) == '"'
            && ParamsText(item)[0] == 'n'
  {
    hide DispositionLine, TypeLine;
    ParamField("name", item.name);
    if item.filename != "" {
      ParamField("filename", item.filename);
      ConcatField("; ", FilenameParam(item));
      ConcatField(NameParam(item), "; " + FilenameParam(item));
      assert Last(ParamsText(item)) == Last(FilenameParam(item));
    } else {
      assert ParamsText(item) == NameParam(item);
    }
  }

  lemma DispositionValueField(item: Item)
    requires PlainItem(item)
    ensures var value := DispositionValue(item);
            value != "" && AllField(value) && IsFieldContent(value) && value[0] == 'f'
  {
    hide ParamsText, DispositionLine, TypeLine;
    var text := ParamsText(item);
    ParamsTextField(item);
    ConcatField(" ", text);
    ConcatField(FORM_DATA, " " + text);
    var value := DispositionValue(item);
    assert value[|value| - 1] == Last(text);
  }

  lemma DispositionIsHeader(item: Item)
    requires PlainItem(item)
    ensures IsHeaderLine(DispositionLine(item))
    ensures DispositionParams(DispositionLine(item)) == Some(ParamsText(item))
  {
    hide PlainItem, IsHeaderLine, DispositionParams, DispositionLine, DispositionValue, ParamsText;
    DispositionLineIs(item);
    TokenNames();
    ParamsTextField(item);
    DispositionValueField(item);
    HeaderLineForm(DISPOSITION_NAME, DispositionValue(item));
    ValueOfDisposition(item);
  }

  lemma ValueOfDisposition(item: Item)
    requires ParamsText(item) != "" && !IsBlank(ParamsText(item)[0])
    requires DispositionLine(item) == DISPOSITION + (" " + DispositionValue(item))
    ensures DispositionParams(DispositionLine(item)) == Some(ParamsText(item))
  {
    hide StartsWithNoCase, DispositionLine, ParamsText;
    var line, value, text := DispositionLine(item), DispositionValue(item), ParamsText(item);
    SkipPrefix(line, DISPOSITION, " " + value);
    TrimOneBlank(value);
    SkipPrefix(value, FORM_DATA, " " + text);
    TrimOneBlank(text);
  }

  // ----- Disposition parameters -----

  lemma ParamPieces(key: string, text: string)
    requires PlainText(text) && key != "" && forall i :: 0 <= i < |key| ==> IsAlnum(key[i])
    ensures Pieces(Param(key, text), ';') == [Param(key, text)]
    ensures Pieces(Param(key, text), '=') == [key, Quoted(text)]
  {
    hide Pieces;
    WholePiece(Param(key, text), ';');
    WholePiece(key, '=');
    WholePiece(Quoted(text), '=');
    Query.PiecesConcat(key, Quoted(text), '=');
    assert key + ['='] + Quoted(text) == Param(key, text);
  }

  lemma KeyOfParam(key: string, text: string)
    requires key != "" && IsAlnum(key[0])
    ensures KeyAndValue([key, Quoted(text)]) == (key, text)
  {
    assert Quoted(text)[1..|Quoted(text)| - 1] == text;
  }

  lemma LaterPiece(p: string, f: string)
    requires Pieces(p, ';') == [p] && f != "" && !IsBlank(f[0]) && !IsBlank(f[|f| - 1])
    requires forall i :: 0 <= i < |f| ==> f[i] != ';'
    ensures Pieces(p + "; " + f, ';') == [p, f]
  {
    assert p + "; " + f == p + [';'] + (" " + f);
    Query.PiecesConcat(p, " " + f, ';');
    PiecesWhole(" " + f, ';');
    TrimOneBlank(f);
    TrimVisible(f);
  }

  function ItemParams(item: Item): seq<(string, string)> {
    [("name", item.name)] + if item.filename != "" then [("filename", item.filename)] else []
  }

  lemma ReadsParams(item: Item)
    requires PlainItem(item)
    ensures ParamsOf(Pieces(ParamsText(item), ';')) == ItemParams(item)
  {
    hide Pieces, KeyAndValue, Param, DispositionLine, TypeLine;
    var p, f := NameParam(item), FilenameParam(item);
    ParamPieces("name", item.name);
    KeyOfParam("name", item.name);
    assert Init([p]) == [];
    assert ParamsOf([p]) == [("name", item.name)];
    if item.filename != "" {
      ParamPieces("filename", item.filename);
      KeyOfParam("filename", item.filename);
      ParamEnds(item);
      LaterPiece(p, f);
      assert Init([p, f]) == [p];
      assert ParamsText(item) == p + ("; " + f) == p + "; " + f;
    } else {
      assert ParamsText(item) == p;
    }
  }

  lemma ParamEnds(item: Item)
    requires PlainText(item.filename)
    ensures NameParam(item) != FilenameParam(item)
    ensures var f := FilenameParam(item);
            f != "" && !IsBlank(f[0]) && !IsBlank(f[|f| - 1]) && forall i :: 0 <= i < |f| ==> f[i] != ';'
  {
    assert NameParam(item)[0] == 'n' && FilenameParam(item)[0] == 'f';
  }

  lemma LookupItem(item: Item)
    ensures Lookup(ItemParams(item), "name") == Some(item.name)
    ensures Lookup(ItemParams(item), "filename") == if item.filename != "" then Some(item.filename) else None
    ensures Lookup(ItemParams(item), "filename*") == None
  {
    assert "name"[0] == 'n' && "filename"[0] == 'f' && |"filename*"| == 9 && |"filename"| == 8 && |"name"| == 4;
    LookupShort("name", item.name, "filename", item.filename, "name");
    LookupShort("name", item.name, "filename", item.filename, "filename");
    LookupShort("name", item.name, "filename", item.filename, "filename*");
  }

  lemma LookupShort(a: string, x: string, b: string, y: string, key: string)
    ensures Lookup([(a, x)], key) == if key == a then Some(x) else None
    ensures Lookup([(a, x)] + [(b, y)], key) == if key == a then Some(x) else if key == b then Some(y) else None
  {
    assert [(a, x)][1..] == [] && ([(a, x)] + [(b, y)])[1..] == [(b, y)] && [(b, y)][1..] == [];
  }

  // ----- Whole lines -----

  function Lines(item: Item): seq<string> {
    [DispositionLine(item)] + if item.contentType != "" then [TypeLine(item)] else []
  }

  /** What the parser knows of an entry after its first k header lines. */
  function PartAfter(item: Item, k: nat): Part {
    if k == 0 then NO_PART else if k == 1 then Part(item.name, item.filename, "")
    else Part(item.name, item.filename, item.contentType)
  }

  lemma ReadsDisposition(item: Item)
    requires PlainItem(item)
    ensures ReadLine(NO_PART, DispositionLine(item)) == LineResult(PartAfter(item, 1), true)
  {
    hide IsHeaderLine, DispositionParams, Pieces, ParamsOf, Lookup, ItemParams, PlainItem, ParamsText, DispositionLine,
         DispositionValue;
    DispositionIsHeader(item);
    NotContentType(item);
    ReadsParams(item);
    LookupItem(item);
  }

  lemma NotContentType(item: Item)
    ensures !StartsWithNoCase(DispositionLine(item), CONTENT_TYPE)
  {
    assert DispositionLine(item)[8] == 'D' && CONTENT_TYPE[8] == 'T';
  }

  lemma ReadsType(item: Item)
    requires PlainItem(item) && item.contentType != ""
    ensures ReadLine(PartAfter(item, 1), TypeLine(item)) == LineResult(PartAfter(item, 2), true)
  {
    hide IsHeaderLine, StartsWithNoCase, TrimLeft, TrimRight, DispositionLine;
    var ct, line := item.contentType, TypeLine(item);
    TokenNames();
    HeaderLineForm(TYPE_NAME, ct);
    assert line == TYPE_NAME + ":" + " " + ct;
    assert line == CONTENT_TYPE + (" " + ct);
    SkipPrefix(line, CONTENT_TYPE, " " + ct);
    TrimOneBlank(ct);
    TrimVisible(ct);
  }

  /** Each header line is read back as what it was written from. */
  lemma ReadsBack(item: Item, k: nat)
    requires PlainItem(item) && k < |Lines(item)|
    ensures ReadLine(PartAfter(item, k), Lines(item)[k]) == LineResult(PartAfter(item, k + 1), true)
  {
    if k == 0 {
      ReadsDisposition(item);
    } else {
      ReadsType(item);
    }
  }

  /** Header lines hold no carriage return, so the first line end is theirs. */
  lemma LineIsPlain(item: Item, k: nat)
    requires PlainItem(item) && k < |Lines(item)|
    ensures var line := Lines(item)[k];
            0 < |line| && forall i :: 0 <= i < |line| ==> line[i] != '\r'
  {
    if k == 0 {
      DispositionLineIs(item);
      DispositionValueField(item);
      ConcatField(" ", DispositionValue(item));
      ConcatField(DISPOSITION, " " + DispositionValue(item));
    } else {
      ConcatField("Content-Type: ", item.contentType);
    }
  }
}
