/** Which names and file names survive being written on a disposition line and read back: those that hold no semicolon
    and no equals sign, because the parser splits inside quotes as well. */
module DispositionLimits {
  import opened Lists
  import opened HttpText
  import opened HeaderFields
  import opened Multipart
  import opened MultipartHeaders
  import opened Dispositions
  import Query

  // ----- What pieces are made of -----

  /** All characters of t occur in s. */
  predicate MadeOf(t: string, s: string) {
    |t| <= |s| && forall i :: 0 <= i < |t| ==> t[i] in s
  }

  lemma TrimIsMadeOf(s: string)
    ensures MadeOf(Trim(s), s)
  {
    TrimLeftCuts(s);
    var u := TrimLeft(s);
    TrimRightCuts(u);
    var t := TrimRight(u);
    forall i | 0 <= i < |t|
      ensures t[i] in s
    {
      assert u[i] == t[i] && s[|s| - |u| + i] == u[i];
    }
  }

  lemma {:induction false} PiecesAreMadeOf(s: string, d: char)
    ensures forall p :: p in Pieces(s, d) ==> MadeOf(p, s) && d !in p
    decreases |s|
  {
    hide Kept;
    var i := IndexOf(s, d);
    if i < |s| {
      KeptIsMadeOf(s[..i], d);
      PiecesAreMadeOf(s[i + 1..], d);
      forall p | p in Pieces(s, d)
        ensures MadeOf(p, s) && d !in p
      {
        if p in Kept(s[..i]) {
          MadeOfPart(p, s, 0, i);
        } else {
          MadeOfPart(p, s, i + 1, |s|);
        }
      }
    } else {
      KeptIsMadeOf(s, d);
    }
  }

  lemma KeptIsMadeOf(s: string, d: char)
    requires d !in s
    ensures forall p :: p in Kept(s) ==> MadeOf(p, s) && d !in p
  {
    TrimIsMadeOf(s);
  }

  lemma MadeOfPart(t: string, s: string, i: nat, j: nat)
    requires i <= j <= |s| && MadeOf(t, s[i..j])
    ensures MadeOf(t, s)
  {
    forall k | 0 <= k < |t|
      ensures t[k] in s
    {
      var n :| 0 <= n < j - i && s[i..j][n] == t[k];
      assert s[i + n] == t[k];
    }
  }

  /** What a parameter text gives, if anything, comes from its pieces, and the value is shorter than the text. */
  lemma PairIsUnsplit(kv: string)
    requires ';' !in kv && Pieces(kv, '=') != []
    ensures var (key, value) := KeyAndValue(Pieces(kv, '=')); Unsplit(value) && |value| <= |kv|
  {
    hide Pieces;
    var parts := Pieces(kv, '=');
    PiecesAreMadeOf(kv, '=');
    if |parts| >= 2 {
      assert Last(parts) in parts;
      UnquotedIsMadeOf(Last(parts));
      assert forall i :: 0 <= i < |Last(parts)| ==> Last(parts)[i] in kv;
    }
  }

  lemma UnquotedIsMadeOf(s: string)
    ensures |Unquote(s)| <= |s| && forall i :: 0 <= i < |Unquote(s)| ==> Unquote(s)[i] in s
  {
    if Unquote(s) != s {
      assert forall i :: 0 <= i < |Unquote(s)| ==> Unquote(s)[i] == s[i + 1];
    }
  }

  /** A value that is looked up comes from one of the texts. */
  lemma {:induction false} LookedUpFrom(texts: seq<string>, key: string) returns (kv: string)
    requires Multipart.Lookup(ParamsOf(texts), key).Some?
    ensures kv in texts && Pieces(kv, '=') != []
    ensures KeyAndValue(Pieces(kv, '=')) == (key, Multipart.Lookup(ParamsOf(texts), key).value)
  {
    hide Pieces, KeyAndValue;
    var before, last := ParamsOf(Init(texts)), Last(texts);
    if Multipart.Lookup(before, key).Some? {
      kv := LookedUpFrom(Init(texts), key);
      if ParamsOf(texts) != before {
        LookupLast(before, KeyAndValue(Pieces(last, '=')), key);
      }
    } else {
      kv := last;
      LookupLast(before, KeyAndValue(Pieces(last, '=')), key);
    }
    assert kv in texts by {
      assert texts == Init(texts) + [last];
    }
  }

  lemma ValueIsUnsplit(text: string, key: string)
    ensures var v := Multipart.Lookup(ParamsOf(Pieces(text, ';')), key);
            v.Some? ==> Unsplit(v.value)
  {
    hide Pieces, ParamsOf;
    if Multipart.Lookup(ParamsOf(Pieces(text, ';')), key).Some? {
      var kv := LookedUpFrom(Pieces(text, ';'), key);
      PiecesAreMadeOf(text, ';');
      PairIsUnsplit(kv);
    }
  }

  // ----- Header lines hold no control characters -----

  lemma HeaderLineIsField(line: string)
    requires IsHeaderLine(line)
    ensures AllField(line)
  {
    var name, value := ReadsAs(line);
    var left, right :| AllBlank(left) && AllBlank(right) && line == name + ":" + left + value + right;
    forall i | 0 <= i < |name|
      ensures IsFieldVChar(name[i])
    {
      assert IsTokenChar(name[i]);
      TokenCharIff(name[i]);
    }
    ConcatField(name, ":");
    ConcatField(name + ":", left);
    ConcatField(name + ":" + left, value);
    ConcatField(name + ":" + left + value, right);
  }

  // ----- Names -----

  /** What has been read of a name holds neither separator. */
  lemma ReadNameIsUnsplit(item: Item)
    requires ReadLine(NO_PART, DispositionLine(item)) == LineResult(PartAfter(item, 1), true)
    ensures Unsplit(item.name) && AllField(item.name) && AllField(item.filename)
  {
    hide IsHeaderLine, DispositionParams, Pieces, ParamsOf, DispositionLine, DispositionValue, ParamsText;
    var line := DispositionLine(item);
    NotContentType(item);
    AssumedHeader(item);
    HeaderLineIsField(line);
    FieldsOfLine(item);
    DispositionOf(item);
    ValueIsUnsplit(ParamsText(item), "name");
  }

  lemma AssumedHeader(item: Item)
    requires ReadLine(NO_PART, DispositionLine(item)) == LineResult(PartAfter(item, 1), true)
    ensures IsHeaderLine(DispositionLine(item))
  {
  }

  lemma FieldsOfLine(item: Item)
    requires AllField(DispositionLine(item))
    ensures AllField(item.name) && AllField(item.filename)
  {
    var line, n := DispositionLine(item), |"Content-Disposition: form-data; name=\""|;
    forall i | 0 <= i < |item.name|
      ensures IsFieldVChar(item.name[i]) || IsBlank(item.name[i])
    {
      assert line[n + i] == item.name[i];
    }
    var m := n + |item.name| + |"\"; filename=\""|;
    forall i | 0 <= i < |item.filename|
      ensures IsFieldVChar(item.filename[i]) || IsBlank(item.filename[i])
    {
      assert line[m + i] == item.filename[i];
    }
  }

  /** The parameters are found whatever the names hold. */
  lemma DispositionOf(item: Item)
    ensures DispositionParams(DispositionLine(item)) == Some(ParamsText(item))
  {
    hide ParamsText;
    DispositionLineIs(item);
    ParamsStart(item);
    ValueOfDisposition(item);
  }

  lemma ParamsStart(item: Item)
    ensures ParamsText(item) != "" && ParamsText(item)[0] == 'n'
  {
  }

  // ----- File names -----

  lemma {:induction false} DecodedIsShorter(s: string, i: nat)
    requires i <= |s|
    ensures |Query.DecodeFrom(s, i, false)| <= |s| - i
    decreases |s| - i
  {
    if i == |s| {
    } else {
      Query.HexValueBound(s, i + 1, 2);
      Query.HexValueBound(s, i + 2, 4);
      DecodedIsShorter(s, Query.DecodeAt(s, i, false).1);
    }
  }

  lemma {:induction false} RightTrimKeeps(t: string, n: nat)
    requires 0 < n <= |t| && !IsBlank(t[n - 1])
    ensures n <= |TrimRight(t)| && TrimRight(t)[..n] == t[..n]
  {
    if !IsBlank(Last(t)) {
    } else {
      assert Init(t)[..n] == t[..n];
      RightTrimKeeps(Init(t), n);
    }
  }

  /** A blank in front goes; what is left begins as before. */
  lemma BlankInFront(t: string, n: nat)
    requires 0 < n <= |t| && !IsBlank(t[0]) && !IsBlank(t[n - 1])
    ensures Kept(" " + t) == [TrimRight(t)] && n <= |TrimRight(t)| && TrimRight(t)[..n] == t[..n]
  {
    BlanksSkipped(" ", t);
    RightTrimKeeps(t, n);
  }

  const FILE_KEY := "filename="

  /** A text that begins like the file name's has its key. */
  lemma FileKey(t: string)
    requires |t| >= 9 && t[..9] == FILE_KEY
    ensures Pieces(t, '=') != [] && KeyAndValue(Pieces(t, '=')).0 == "filename"
  {
    hide Pieces, Kept, Trim;
    assert t == "filename" + ['='] + t[9..];
    assert Unquote("filename") == "filename";
    Query.PiecesConcat("filename", t[9..], '=');
    PiecesWhole("filename", '=');
    VisibleKept("filename");
  }

  lemma NameKey(item: Item)
    requires PlainText(item.name)
    ensures KeyAndValue(Pieces(NameParam(item), '=')).0 == "name"
  {
    ParamPieces("name", item.name);
    KeyOfParam("name", item.name);
  }

  /** The file name's parameter, cut at its first semicolon. */
  lemma FileTexts(f: string) returns (t: string, more: seq<string>)
    ensures Pieces(" filename=\"" + f + "\"", ';') == [t] + more
    ensures |t| >= 9 && t[..9] == FILE_KEY && forall p :: p in more ==> |p| <= |f|
  {
    hide Pieces, Kept, TrimRight;
    var rest, i := " filename=\"" + f + "\"", IndexOf(f, ';');
    if i == |f| {
      var whole := "filename=\"" + f + "\"";
      assert rest == " " + whole;
      assert forall k :: 11 <= k < |rest| - 1 ==> rest[k] == f[k - 11];
      PiecesWhole(rest, ';');
      assert whole[..9] == FILE_KEY;
      BlankInFront(whole, 9);
      t, more := TrimRight(whole), [];
    } else {
      var first, last := "filename=\"" + f[..i], f[i + 1..] + "\"";
      assert rest == (" " + first) + [';'] + last;
      assert forall k :: 11 <= k < |" " + first| ==> (" " + first)[k] == f[k - 11];
      Query.PiecesConcat(" " + first, last, ';');
      PiecesWhole(" " + first, ';');
      assert first[..9] == FILE_KEY;
      BlankInFront(first, 9);
      PiecesAreMadeOf(last, ';');
      t, more := TrimRight(first), Pieces(last, ';');
    }
  }

  /** A coded file name is found only inside the file name, so it is shorter. */
  lemma CodedNameIsShort(item: Item)
    requires PlainText(item.name) && item.filename != ""
    ensures var v := Multipart.Lookup(ParamsOf(Pieces(ParamsText(item), ';')), "filename*");
            v.Some? ==> |v.value| <= |item.filename|
  {
    hide Pieces, ParamsOf, KeyAndValue, Param, Unsplit;
    var p, rest := NameParam(item), " filename=\"" + item.filename + "\"";
    ParamPieces("name", item.name);
    FileForm(item);
    Query.PiecesConcat(p, rest, ';');
    var t, more := FileTexts(item.filename);
    var texts := Pieces(ParamsText(item), ';');
    assert texts == [p, t] + more;
    if Multipart.Lookup(ParamsOf(texts), "filename*").Some? {
      var kv := LookedUpFrom(texts, "filename*");
      PiecesAreMadeOf(ParamsText(item), ';');
      PairIsUnsplit(kv);
      NameKey(item);
      FileKey(t);
    }
  }

  lemma FileForm(item: Item)
    requires item.filename != ""
    ensures ParamsText(item) == NameParam(item) + [';'] + (" filename=\"" + item.filename + "\"")
  {
    assert FilenameParam(item) == "filename=\"" + item.filename + "\"";
  }

  lemma ReadFilenameIsUnsplit(item: Item)
    requires ReadLine(NO_PART, DispositionLine(item)) == LineResult(PartAfter(item, 1), true)
    requires PlainText(item.name)
    ensures Unsplit(item.filename)
  {
    hide IsHeaderLine, DispositionParams, Pieces, ParamsOf, DispositionLine, DispositionValue, ParamsText;
    NotContentType(item);
    DispositionOf(item);
    var params := ParamsOf(Pieces(ParamsText(item), ';'));
    ValueIsUnsplit(ParamsText(item), "filename");
    if item.filename != "" && Multipart.Lookup(params, "filename*").Some? {
      var f := Multipart.Lookup(params, "filename*").value;
      CodedNameIsShort(item);
      if |f| > 7 {
        DecodedIsShorter(f[7..], 0);
      }
    }
  }

  /** A disposition line is read back as the name and the file name that it was written from exactly if both are text
      for a header line and hold neither a semicolon nor an equals sign. */
  lemma DispositionReadsBackIff(item: Item)
    ensures ReadLine(NO_PART, DispositionLine(item)) == LineResult(PartAfter(item, 1), true) <==>
              PlainText(item.name) && PlainText(item.filename)
  {
    hide ReadLine, DispositionLine;
    if PlainText(item.name) && PlainText(item.filename) {
      var plain := item.(contentType := "");
      SameDisposition(item);
      ReadsDisposition(plain);
    } else if ReadLine(NO_PART, DispositionLine(item)) == LineResult(PartAfter(item, 1), true) {
      ReadNameIsUnsplit(item);
      ReadFilenameIsUnsplit(item);
    }
  }

  lemma SameDisposition(item: Item)
    ensures DispositionLine(item) == DispositionLine(item.(contentType := ""))
    ensures PartAfter(item, 1) == PartAfter(item.(contentType := ""), 1)
  {
  }
}
