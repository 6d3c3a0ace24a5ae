/** Header lines: which are well formed, and the fields they give. */
module HeaderFields {
  import opened Lists
  import opened HttpText
  import Query

  /** A line "name: value" with a token for a name and a well-formed value, trailing blanks aside. */
  predicate IsHeaderLine(line: string) {
    var t := TrimRight(line);
    var p := IndexOf(t, ':');
    IsToken(t[..p]) && p < |t| && IsFieldContent(TrimLeft(t[p + 1..]))
  }

  predicate SameNoCase(a: string, b: string) {
    |a| == |b| && StartsWithNoCase(a, b)
  }

  const LOCATION := "Location"
  const REFERER := "Referer"

  /** The name and the value of a header line; values are percent coded, except in the fields that hold a URL. */
  function HeaderField(line: string): (r: Option<(string, string)>)
    ensures r.Some? <==> IsHeaderLine(line)
  {
    if !IsHeaderLine(line) then None
    else
      var t := TrimRight(line);
      var p := IndexOf(t, ':');
      var key, val := t[..p], TrimLeft(t[p + 1..]);
      Some((key, if SameNoCase(key, LOCATION) || SameNoCase(key, REFERER) then val else Query.Decode(val, false)))
  }

  method IsTokenText(s: string) returns (ok: bool)
    ensures ok == IsToken(s)
  {
    if s == "" {
      return false;
    }
    var i := 0;
    while i < |s|
      invariant 0 <= i <= |s| && forall j :: 0 <= j < i ==> IsTokenChar(s[j])
    {
      if !IsTokenChar(s[i]) {
        return false;
      }
      i := i + 1;
    }
    return true;
  }

  method IsFieldValue(s: string) returns (ok: bool)
    ensures ok == IsFieldContent(s)
  {
    if s == "" {
      return true;
    }
    if |s| == 1 {
      return IsFieldVChar(s[0]);
    } else if |s| == 2 {
      return IsFieldVChar(s[0]) && IsFieldVChar(s[1]);
    }
    var i := 0;
    if !IsFieldVChar(s[i]) {
      return false;
    }
    i := i + 1;
    while i < |s| - 1
      invariant 1 <= i <= |s| - 1 && forall j :: 0 <= j < i ==> IsFieldVChar(s[j]) || IsBlank(s[j])
    {
      var c := s[i];
      i := i + 1;
      if !(c == ' ' || c == '\t' || IsFieldVChar(c)) {
        return false;
      }
    }
    return IsFieldVChar(s[i]);
  }

  method ParseHeader(line: string) returns (field: Option<(string, string)>)
    ensures field == HeaderField(line)
  {
    hide IsFieldContent, IsToken, SameNoCase, Query.Decode, IndexOf;
    var end := |line|;
    assert line[..end] == line;
    while 0 < end && IsBlank(line[end - 1])
      invariant 0 <= end <= |line| && TrimRight(line[..end]) == TrimRight(line)
    {
      assert Init(line[..end]) == line[..end - 1];
      end := end - 1;
    }
    ghost var t := line[..end];
    assert TrimRight(line) == t;
    var p := 0;
    while p < end && line[p] != ':'
      invariant 0 <= p <= end && forall k :: 0 <= k < p ==> line[k] != ':'
    {
      p := p + 1;
    }
    IndexOfIs(t, ':', p);
    assert t[..p] == line[..p];
    var token := IsTokenText(line[..p]);
    if !token || p == end {
      return None;
    }
    var key := line[..p];
    p := p + 1;
    assert t[p..] == line[p..end];
    ghost var value := line[p..end];
    while p < end && IsBlank(line[p])
      invariant 0 < p <= end && TrimLeft(line[p..end]) == TrimLeft(value)
    {
      assert line[p..end][1..] == line[p + 1..end];
      p := p + 1;
    }
    assert TrimLeft(value) == line[p..end];
    var val := line[p..end];
    var ok := IsFieldValue(val);
    if !ok {
      return None;
    }
    if !SameNoCase(key, LOCATION) && !SameNoCase(key, REFERER) {
      val := Query.DecodeUrl(val, false);
    }
    return Some((key, val));
  }

  // ----- Which lines are header lines -----

  /** A name, a colon, and a value with blanks around it. */
  ghost predicate Reads(line: string, name: string, value: string) {
    && IsToken(name) && IsFieldContent(value)
    && exists left, right :: AllBlank(left) && AllBlank(right) && line == name + ":" + left + value + right
  }

  lemma ReadsParts(name: string, left: string, value: string, right: string)
    requires IsToken(name) && IsFieldContent(value) && AllBlank(left) && AllBlank(right)
    ensures var t := TrimRight(name + ":" + left + value + right);
            IndexOf(t, ':') == |name| < |t| && t[..|name|] == name && TrimLeft(t[|name| + 1..]) == value
  {
    hide IsFieldContent, TrimLeft, TrimRight, IndexOf, IsTokenChar;
    var line := name + ":" + left + value + right;
    NoColonIn(name);
    if value == "" {
      assert line == (name + ":") + (left + right);
      assert Last(name + ":") == ':';
      BlanksDropped(name + ":", left + right);
      ColonBehind(name, "");
      assert name + ":" + "" == name + ":";
      BlanksSkipped("", value);
      assert "" + value == value;
    } else {
      FieldEnds(value);
      assert line == (name + ":" + left + value) + right;
      assert Last(name + ":" + left + value) == Last(value);
      BlanksDropped(name + ":" + left + value, right);
      ColonBehind(name, left + value);
      assert name + ":" + left + value == name + ":" + (left + value);
      BlanksSkipped(left, value);
    }
  }

  lemma NoColonIn(name: string)
    requires IsToken(name)
    ensures forall i :: 0 <= i < |name| ==> name[i] != ':'
  {
    forall i | 0 <= i < |name|
      ensures name[i] != ':'
    {
      assert IsTokenChar(name[i]);
    }
  }

  lemma FieldEnds(value: string)
    requires IsFieldContent(value) && value != ""
    ensures !IsBlank(value[0]) && !IsBlank(Last(value))
  {
  }

  lemma ColonBehind(name: string, rest: string)
    requires forall i :: 0 <= i < |name| ==> name[i] != ':'
    ensures var t := name + ":" + rest; IndexOf(t, ':') == |name| && t[..|name|] == name && t[|name| + 1..] == rest
  {
    var t := name + ":" + rest;
    assert forall i :: 0 <= i < |name| ==> t[i] == name[i];
    IndexOfIs(t, ':', |name|);
  }

  /** The field that a line gives: its value is percent decoded unless the name, in letters of either case, is that
      of a field that holds a URL. */
  lemma FieldIs(line: string, name: string, value: string)
    requires Reads(line, name, value)
    ensures HeaderField(line) ==
            Some((name, if Respelled(name, "Location") || Respelled(name, "Referer") then value
                        else Query.Decode(value, false)))
  {
    hide IsFieldContent, IsToken, Query.Decode, SameLetter, StartsWithNoCase;
    var left, right :| AllBlank(left) && AllBlank(right) && line == name + ":" + left + value + right;
    ReadsParts(name, left, value, right);
    SameNoCaseIff(name, LOCATION);
    SameNoCaseIff(name, REFERER);
  }

  lemma SameNoCaseIff(a: string, b: string)
    ensures SameNoCase(a, b) <==> Respelled(a, b)
  {
    hide SameLetter;
    if |a| == |b| {
      StartsWithRespelled(a, b, "");
      assert a + "" == a && a[..|b|] == a;
    }
  }

  /** The header lines are exactly those that read as a name and a value. */
  lemma HeaderLineIff(line: string)
    ensures IsHeaderLine(line) <==> exists name, value :: Reads(line, name, value)
  {
    hide IsHeaderLine, Reads;
    if IsHeaderLine(line) {
      var name, value := ReadsAs(line);
    }
    forall name, value | Reads(line, name, value)
      ensures IsHeaderLine(line)
    {
      FieldIs(line, name, value);
    }
  }

  lemma ReadsAs(line: string) returns (name: string, value: string)
    requires IsHeaderLine(line)
    ensures Reads(line, name, value)
  {
    hide IsFieldContent, IsToken, Reads, TrimLeft, TrimRight, IndexOf, AllBlank;
    var t := TrimRight(line);
    var p := IndexOf(t, ':');
    var rest := t[p + 1..];
    name, value := t[..p], TrimLeft(rest);
    TrimRightCuts(line);
    TrimLeftCuts(rest);
    var left, right := rest[..|rest| - |value|], line[|t|..];
    CutInFour(line, t, p, left, value, right);
    ReadsSo(line, name, left, value, right);
  }

  lemma CutInFour(line: string, t: string, p: nat, left: string, value: string, right: string)
    requires p < |t| && t[p] == ':' && line == t + right && t[p + 1..] == left + value
    ensures line == t[..p] + ":" + left + value + right
  {
    assert t == t[..p] + ":" + t[p + 1..];
  }

  lemma ReadsSo(line: string, name: string, left: string, value: string, right: string)
    requires IsToken(name) && IsFieldContent(value) && AllBlank(left) && AllBlank(right)
    requires line == name + ":" + left + value + right
    ensures Reads(line, name, value)
  {
  }

  // ----- Reading back what is written -----

  /** name ":" " "* value, with a token and a value that is well formed and not blank at either end. */
  lemma HeaderLineForm(name: string, value: string)
    requires IsToken(name) && value != "" && IsFieldContent(value)
    ensures IsHeaderLine(name + ":" + " " + value)
  {
    hide IsHeaderLine, IsToken, IsFieldContent;
    var line := name + ":" + " " + value;
    assert line == name + ":" + " " + value + "";
    ReadsSo(line, name, " ", value, "");
    HeaderLineIff(line);
  }

  lemma TrimOneBlank(s: string)
    requires s != "" && !IsBlank(s[0])
    ensures TrimLeft(" " + s) == s && TrimLeft(s) == s
  {
    assert (" " + s)[1..] == s;
  }

  /** A value that is written as it is comes back if reading does not decode it to something else. */
  predicate ReadableValue(key: string, val: string) {
    IsFieldContent(val) && (SameNoCase(key, LOCATION) || SameNoCase(key, REFERER) || Query.Decode(val, false) == val)
  }

  lemma FieldReadsBack(key: string, val: string)
    requires IsToken(key) && ReadableValue(key, val)
    ensures HeaderField(key + ": " + val) == Some((key, val))
  {
    hide IsFieldContent, IsToken, SameNoCase, Query.Decode, Respelled;
    var line := key + ": " + val;
    assert line == key + ":" + " " + val + "";
    ReadsSo(line, key, " ", val, "");
    FieldIs(line, key, val);
    SameNoCaseIff(key, LOCATION);
    SameNoCaseIff(key, REFERER);
  }

  /** A value written in percent codes is read as the value it was coded from; a URL is read as it is written. */
  lemma CodedFieldReadsBack(key: string, val: string)
    requires IsToken(key) && Query.IsBytes(val)
    ensures HeaderField(key + ": " + Query.Encode(val)) ==
            Some((key, if Respelled(key, "Location") || Respelled(key, "Referer") then Query.Encode(val) else val))
  {
    hide IsToken, Query.Decode, Query.Encode, SameLetter, StartsWithNoCase;
    var coded := Query.Encode(val);
    CodedIsField(val);
    Query.DecodeEncode(val, false);
    assert key + ": " + coded == key + ":" + " " + coded + "";
    ReadsSo(key + ": " + coded, key, " ", coded, "");
    FieldIs(key + ": " + coded, key, coded);
  }

  lemma CodedIsField(val: string)
    ensures IsFieldContent(Query.Encode(val))
  {
    hide Query.Encode;
    var coded := Query.Encode(val);
    Query.EncodeIsClean(val);
    forall i | 0 <= i < |coded|
      ensures IsFieldVChar(coded[i])
    {
      assert coded[i] == '%' || Query.IsPlain(coded[i]);
    }
  }
}
