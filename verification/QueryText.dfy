/** What a query string spells: the meaning of every text under percent coding, plus signs and %u escapes, and how
    the server reads parameters spelled in any way. */
module QueryText {
  import opened Lists
  import opened HttpText
  import opened Multimaps
  import opened Query

  // ----- Tokens -----

  /** A character for itself, a plus sign, a byte in two hexadecimal digits, a code in four. */
  datatype Token = Raw(c: char) | Plus | Percent(h: char, l: char) | Unicode(a: char, b: char, c: char, d: char)

  const UPPER := "0123456789ABCDEF"
  const LOWER := "0123456789abcdef"

  predicate Spells(c: char, d: nat) {
    d < 16 && (c == UPPER[d] || c == LOWER[d])
  }

  lemma HexDigitIs(c: char)
    ensures forall d: nat :: HexDigit(c) == Some(d) <==> Spells(c, d)
  {
  }

  function Digit(c: char): nat {
    match HexDigit(c) case Some(d) => d case None => 0
  }

  predicate IsHexPair(h: char, l: char) {
    HexDigit(h).Some? && HexDigit(l).Some?
  }

  function TokenText(t: Token): string {
    match t
    case Raw(c) => [c]
    case Plus => "+"
    case Percent(h, l) => ['%', h, l]
    case Unicode(a, b, c, d) => ['%', 'u', a, b, c, d]
  }

  function Text(ts: seq<Token>): string {
    if ts == [] then "" else TokenText(ts[0]) + Text(ts[1..])
  }

  function CodeOf(a: char, b: char, c: char, d: char): (n: nat)
    ensures IsHexPair(a, b) && IsHexPair(c, d) ==> n < 0x10000
  {
    4096 * Digit(a) + 256 * Digit(b) + 16 * Digit(c) + Digit(d)
  }

  function TokenMeaning(t: Token, plus: bool): string {
    match t
    case Raw(c) => [c]
    case Plus => if plus then " " else "+"
    case Percent(h, l) => [(16 * Digit(h) + Digit(l)) as char]
    case Unicode(a, b, c, d) => if CodeOf(a, b, c, d) < 0x10000 then ToUtf8(CodeOf(a, b, c, d)) else ""
  }

  function Meaning(ts: seq<Token>, plus: bool): string {
    if ts == [] then "" else TokenMeaning(ts[0], plus) + Meaning(ts[1..], plus)
  }

  /** What behind a percent sign makes an escape of it. */
  predicate Escapes(z: string) {
    || (|z| >= 2 && IsHexPair(z[0], z[1]))
    || (|z| >= 5 && z[0] == 'u' && IsHexPair(z[1], z[2]) && IsHexPair(z[3], z[4]))
  }

  predicate GoodToken(t: Token, z: string) {
    match t
    case Raw(c) => c != '+' && (c == '%' ==> !Escapes(z))
    case Plus => true
    case Percent(h, l) => IsHexPair(h, l)
    case Unicode(a, b, c, d) => IsHexPair(a, b) && IsHexPair(c, d)
  }

  predicate GoodTokens(ts: seq<Token>) {
    ts == [] || (GoodToken(ts[0], Text(ts[1..])) && GoodTokens(ts[1..]))
  }

  // ----- Decoding from the front -----

  lemma {:induction false} HexValueSuffix(a: string, s: string, i: nat, cnt: nat)
    ensures HexValue(a + s, |a| + i, cnt) == HexValue(s, i, cnt)
    decreases cnt
  {
    if cnt == 0 || i + cnt > |s| {
    } else {
      HexValueSuffix(a, s, i, cnt - 1);
    }
  }

  lemma DecodeAtSuffix(a: string, s: string, i: nat, plus: bool)
    requires i < |s|
    ensures DecodeAt(a + s, |a| + i, plus) == (DecodeAt(s, i, plus).0, |a| + DecodeAt(s, i, plus).1)
  {
    hide ToUtf8, HexValue;
    HexValueSuffix(a, s, i + 1, 2);
    HexValueSuffix(a, s, i + 2, 4);
  }

  lemma {:induction false} DecodeSuffix(a: string, s: string, i: nat, plus: bool)
    ensures DecodeFrom(a + s, |a| + i, plus) == DecodeFrom(s, i, plus)
    decreases |s| - i
  {
    hide DecodeAt;
    if i >= |s| {
    } else {
      DecodeAtSuffix(a, s, i, plus);
      DecodeSuffix(a, s, DecodeAt(s, i, plus).1, plus);
    }
  }

  lemma DecodeFront(s: string, n: nat, plus: bool)
    requires 0 < n <= |s| && DecodeAt(s, 0, plus).1 == n
    ensures Decode(s, plus) == DecodeAt(s, 0, plus).0 + Decode(s[n..], plus)
  {
    hide DecodeAt;
    DecodeSuffix(s[..n], s[n..], 0, plus);
    assert s[..n] + s[n..] == s;
  }

  lemma HexPairValue(s: string, i: nat)
    requires i + 2 <= |s|
    ensures HexValue(s, i, 2) == if IsHexPair(s[i], s[i + 1]) then Some(16 * Digit(s[i]) + Digit(s[i + 1])) else None
  {
    assert HexValue(s, i, 0) == Some(0);
    assert HexValue(s, i, 1) == if HexDigit(s[i]).Some? then Some(Digit(s[i])) else None;
  }

  lemma HexQuadValue(s: string, i: nat)
    requires i + 4 <= |s|
    ensures HexValue(s, i, 4) ==
            if IsHexPair(s[i], s[i + 1]) && IsHexPair(s[i + 2], s[i + 3])
            then Some(CodeOf(s[i], s[i + 1], s[i + 2], s[i + 3])) else None
  {
    HexPairValue(s, i);
    var v := 16 * Digit(s[i]) + Digit(s[i + 1]);
    assert HexValue(s, i, 3) ==
           if IsHexPair(s[i], s[i + 1]) && HexDigit(s[i + 2]).Some? then Some(16 * v + Digit(s[i + 2])) else None;
  }

  lemma NotAnEscape(s: string)
    requires s != "" && s[0] == '%' && !Escapes(s[1..])
    ensures |s| > 1 && s[1] != 'u' ==> HexValue(s, 1, 2) == None
    ensures |s| > 1 && s[1] == 'u' ==> HexValue(s, 2, 4) == None
  {
    if |s| >= 3 {
      HexPairValue(s, 1);
    }
    if |s| >= 6 {
      HexQuadValue(s, 2);
    }
  }

  lemma TokenDecodes(t: Token, z: string, plus: bool)
    requires GoodToken(t, z)
    ensures DecodeAt(TokenText(t) + z, 0, plus) == (TokenMeaning(t, plus), |TokenText(t)|)
  {
    hide ToUtf8, HexValue, HexDigit;
    var s := TokenText(t) + z;
    match t
    case Raw(c) =>
      assert s[1..] == z;
      if c == '%' {
        NotAnEscape(s);
      }
    case Plus =>
    case Percent(h, l) =>
      UIsNoDigit();
      HexPairValue(s, 1);
    case Unicode(a, b, c, d) => HexQuadValue(s, 2);
  }

  lemma UIsNoDigit()
    ensures HexDigit('u').None?
  {
  }

  /** Every text means what it spells. */
  lemma {:induction false} DecodesAsSpelled(ts: seq<Token>, plus: bool)
    requires GoodTokens(ts)
    ensures Decode(Text(ts), plus) == Meaning(ts, plus)
  {
    if ts == [] {
    } else {
      hide DecodeAt, DecodeFrom, GoodToken, TokenMeaning, TokenText;
      var n, s := |TokenText(ts[0])|, Text(ts);
      assert s[n..] == Text(ts[1..]);
      TokenDecodes(ts[0], Text(ts[1..]), plus);
      TokenIsText(ts[0]);
      DecodeFront(s, n, plus);
      DecodesAsSpelled(ts[1..], plus);
    }
  }

  lemma TokenIsText(t: Token)
    ensures TokenText(t) != ""
  {
  }

  lemma SomeText(ts: seq<Token>)
    requires ts != []
    ensures Text(ts) != ""
  {
    TokenIsText(ts[0]);
  }

  /** And every text spells something: malformed escapes stand for themselves. */
  lemma {:induction false} EveryTextIsSpelled(s: string) returns (ts: seq<Token>)
    ensures GoodTokens(ts) && Text(ts) == s
  {
    if s == "" {
      ts := [];
    } else {
      var t, n := FirstToken(s);
      var rest := EveryTextIsSpelled(s[n..]);
      ts := [t] + rest;
      assert ts[1..] == rest;
    }
  }

  lemma FirstToken(s: string) returns (t: Token, n: nat)
    requires s != ""
    ensures 0 < n <= |s| && TokenText(t) == s[..n] && GoodToken(t, s[n..])
  {
    hide HexDigit;
    if s[0] == '%' && Escapes(s[1..]) {
      if |s| >= 3 && IsHexPair(s[1], s[2]) {
        t, n := Percent(s[1], s[2]), 3;
      } else {
        t, n := Unicode(s[2], s[3], s[4], s[5]), 6;
      }
    } else if s[0] == '+' {
      t, n := Plus, 1;
    } else {
      t, n := Raw(s[0]), 1;
    }
  }

  // ----- The plus sign -----

  function Blanked(s: string): (t: string)
    ensures |t| == |s| && forall i :: 0 <= i < |s| ==> t[i] == if s[i] == '+' then ' ' else s[i]
  {
    seq(|s|, i requires 0 <= i < |s| => if s[i] == '+' then ' ' else s[i])
  }

  lemma {:induction false} HexValueBlanked(s: string, i: nat, cnt: nat)
    ensures HexValue(Blanked(s), i, cnt) == HexValue(s, i, cnt)
    decreases cnt
  {
    if cnt == 0 || i + cnt > |s| {
    } else {
      HexValueBlanked(s, i, cnt - 1);
    }
  }

  lemma {:induction false} BlankedFrom(s: string, i: nat)
    ensures DecodeFrom(s, i, true) == DecodeFrom(Blanked(s), i, false)
    decreases |s| - i
  {
    hide ToUtf8, HexValue;
    if i >= |s| {
    } else {
      HexValueBlanked(s, i + 1, 2);
      HexValueBlanked(s, i + 2, 4);
      assert DecodeAt(s, i, true) == DecodeAt(Blanked(s), i, false);
      BlankedFrom(s, DecodeAt(s, i, true).1);
    }
  }

  /** With plus for a blank a text is read like the one with blanks in place of its plus signs. */
  lemma PlusIsBlank(s: string)
    ensures Decode(s, true) == Decode(Blanked(s), false)
  {
    BlankedFrom(s, 0);
  }

  // ----- Codes in UTF-8 -----

  predicate IsContinuation(c: char) { 0x80 <= c as int < 0xC0 }

  /** The code of one character in UTF-8 of up to three bytes, as section 3 of RFC 3629 defines it. */
  function FromUtf8(s: string): Option<nat> {
    if |s| == 1 && s[0] as int < 0x80 then Some(s[0] as int)
    else if |s| == 2 && 0xC0 <= s[0] as int < 0xE0 && IsContinuation(s[1]) then
      Shortest((s[0] as int - 0xC0) * 0x40 + (s[1] as int - 0x80), 0x80)
    else if |s| == 3 && 0xE0 <= s[0] as int < 0xF0 && IsContinuation(s[1]) && IsContinuation(s[2]) then
      Shortest((s[0] as int - 0xE0) * 0x1000 + (s[1] as int - 0x80) * 0x40 + (s[2] as int - 0x80), 0x800)
    else None
  }

  /** Longer forms than needed and surrogates are no characters. */
  function Shortest(code: nat, least: nat): Option<nat> {
    if code >= least && !(0xD800 <= code <= 0xDFFF) then Some(code) else None
  }

  /** A %u escape stands for its code in UTF-8, and one of a surrogate for nothing. */
  lemma Utf8ReadsBack(code: nat)
    requires code < 0x10000
    ensures if 0xD800 <= code <= 0xDFFF then ToUtf8(code) == "" else FromUtf8(ToUtf8(code)) == Some(code)
  {
    if code < 0x800 {
    } else {
      assert code == code / 4096 * 4096 + code / 64 % 64 * 64 + code % 64;
    }
  }

  // ----- What the encoder writes -----

  predicate Unreserved(c: char) {
    || 'A' <= c <= 'Z' || 'a' <= c <= 'z' || '0' <= c <= '9'
    || c == '-' || c == '_' || c == '.' || c == '!' || c == '~' || c == '*' || c == '\'' || c == '(' || c == ')'
  }

  /** Unreserved characters for themselves, every other byte in two upper-case digits. */
  function EncodedToken(c: char): Token {
    if Unreserved(c) then Raw(c) else Percent(UPPER[c as int / 16 % 16], UPPER[c as int % 16])
  }

  function Spelling(s: string): seq<Token> {
    if s == "" then [] else [EncodedToken(s[0])] + Spelling(s[1..])
  }

  lemma {:induction false} EncodesAsSpelled(s: string)
    ensures Encode(s) == Text(Spelling(s))
  {
    if s == "" {
    } else {
      EncodesAsSpelled(s[1..]);
      EncodedChar(s[0]);
      assert Spelling(s)[1..] == Spelling(s[1..]);
    }
  }

  lemma EncodedChar(c: char)
    ensures EncodeChar(c) == TokenText(EncodedToken(c))
  {
    UpperDigit(c as int / 16 % 16);
    UpperDigit(c as int % 16);
  }

  lemma UpperDigit(d: nat)
    requires d < 16
    ensures UpperHex(d) == UPPER[d]
  {
  }

  // ----- Parameters spelled in any way -----

  /** A parameter as it is written: a key, and a value unless there is no equals sign. */
  datatype Written = Written(key: seq<Token>, value: Option<seq<Token>>)

  function PartText(w: Written): string {
    Text(w.key) + if w.value.Some? then "=" + Text(w.value.value) else ""
  }

  function PartMeaning(w: Written): (string, string) {
    (Meaning(w.key, true), if w.value.Some? then Meaning(w.value.value, true) else "")
  }

  /** The key is there and holds no equals sign; the part holds no separator and has no blank at either end. */
  predicate GoodPart(w: Written) {
    && GoodTokens(w.key) && (w.value.Some? ==> GoodTokens(w.value.value))
    && w.key != [] && (forall i :: 0 <= i < |Text(w.key)| ==> Text(w.key)[i] != '=')
    && var t := PartText(w);
       t != "" && !IsBlank(t[0]) && !IsBlank(t[|t| - 1]) && forall i :: 0 <= i < |t| ==> t[i] != '&'
  }

  predicate GoodParts(ws: seq<Written>) {
    && (forall i :: 0 <= i < |ws| ==> GoodPart(ws[i]))
    && forall i, j :: 0 <= i < j < |ws| ==> PartText(ws[i]) != PartText(ws[j])
  }

  function Joined(ws: seq<Written>): string {
    if ws == [] then "" else Joined(Init(ws)) + (if |ws| > 1 then "&" else "") + PartText(Last(ws))
  }

  function PartTexts(ws: seq<Written>): (r: seq<string>)
    ensures |r| == |ws| && forall i :: 0 <= i < |ws| ==> r[i] == PartText(ws[i])
  {
    if ws == [] then [] else PartTexts(Init(ws)) + [PartText(Last(ws))]
  }

  /** The parameters inserted one after the other. */
  function Inserted(ws: seq<Written>): Params {
    if ws == [] then []
    else Emplace(Inserted(Init(ws)), PartMeaning(Last(ws)).0, PartMeaning(Last(ws)).1)
  }

  lemma {:induction false} JoinedPieces(ws: seq<Written>)
    requires forall i :: 0 <= i < |ws| ==> GoodPart(ws[i])
    ensures Pieces(Joined(ws), '&') == PartTexts(ws)
  {
    hide Pieces, PartText, GoodTokens;
    if ws == [] {
      PiecesWhole("", '&');
    } else {
      assert forall i :: 0 <= i < |ws| - 1 ==> Init(ws)[i] == ws[i];
      JoinedPieces(Init(ws));
      var t := PartText(Last(ws));
      PiecesWhole(t, '&');
      TrimVisible(t);
      if |ws| > 1 {
        PiecesConcat(Joined(Init(ws)), t, '&');
      } else {
        assert Joined(ws) == t;
      }
    }
  }

  /** One part is divided at its first equals sign; a key alone has the empty value. */
  lemma PartDivides(w: Written)
    requires GoodPart(w)
    ensures Divided(PartText(w), '=') == (Text(w.key), if w.value.Some? then Text(w.value.value) else "")
    ensures Text(w.key) != "" && Decode(Text(w.key), true) == PartMeaning(w).0
    ensures Decode(if w.value.Some? then Text(w.value.value) else "", true) == PartMeaning(w).1
  {
    hide GoodTokens, Text, Decode, Meaning;
    var t, k := PartText(w), Text(w.key);
    assert forall i :: 0 <= i < |k| ==> t[i] == k[i];
    IndexOfIs(t, '=', |k|);
    assert t[..|k|] == k;
    if w.value.Some? {
      assert t[|k| + 1..] == Text(w.value.value);
      DecodesAsSpelled(w.value.value, true);
    } else {
      assert t == k;
      NothingDecoded();
    }
    SomeText(w.key);
    DecodesAsSpelled(w.key, true);
  }

  lemma {:induction false} PartsRead(ws: seq<Written>)
    requires GoodParts(ws)
    ensures ParseParts(PartTexts(ws)) == Inserted(ws)
  {
    hide GoodPart, PartText, PartMeaning, Decode, Divided, Emplace;
    if ws == [] {
    } else {
      var before, w := Init(ws), Last(ws);
      assert forall i :: 0 <= i < |before| ==> before[i] == ws[i];
      assert ws[|ws| - 1] == w;
      PartsRead(before);
      PartDivides(w);
      var texts := PartTexts(ws);
      assert Init(texts) == PartTexts(before) && Last(texts) == PartText(w);
      assert PartText(w) !in PartTexts(before);
      var (key, val) := Divided(PartText(w), '=');
      assert ParseParts(texts) == Emplace(ParseParts(PartTexts(before)), Decode(key, true), Decode(val, true));
    }
  }

  /** Parameters written in any way, in any order, with and without values, are read as what they spell. */
  lemma ReadAsSpelled(ws: seq<Written>)
    requires GoodParts(ws)
    ensures Parse(Joined(ws)) == Inserted(ws)
  {
    JoinedPieces(ws);
    PartsRead(ws);
  }

  // ----- Form coding -----

  /** Plus signs for blanks, percent codes for all that is reserved. */
  function FormToken(c: char): Token {
    if c == ' ' then Plus else EncodedToken(c)
  }

  function FormSpelling(s: string): seq<Token> {
    if s == "" then [] else [FormToken(s[0])] + FormSpelling(s[1..])
  }

  /** Text that neither separates parameters nor is trimmed. */
  predicate Clean(t: string) {
    forall i :: 0 <= i < |t| ==> t[i] != '&' && t[i] != '=' && !IsBlank(t[i])
  }

  lemma FormTokenMeans(c: char, z: string)
    requires c as int < 256
    ensures GoodToken(FormToken(c), z) && TokenMeaning(FormToken(c), true) == [c] && Clean(TokenText(FormToken(c)))
  {
    hide ToUtf8, HexDigit;
    if c != ' ' && !Unreserved(c) {
      UpperIsHex(c as int / 16 % 16);
      UpperIsHex(c as int % 16);
    }
  }

  lemma UpperIsHex(d: nat)
    requires d < 16
    ensures HexDigit(UPPER[d]) == Some(d) && UPPER[d] != '&' && UPPER[d] != '=' && !IsBlank(UPPER[d])
  {
  }

  lemma {:induction false} FormSpellingMeans(s: string)
    requires IsBytes(s)
    ensures GoodTokens(FormSpelling(s)) && Meaning(FormSpelling(s), true) == s && Clean(Text(FormSpelling(s)))
  {
    hide GoodToken, TokenMeaning, FormToken, TokenText;
    if s == "" {
    } else {
      FormSpellingMeans(s[1..]);
      assert FormSpelling(s)[1..] == FormSpelling(s[1..]);
      FormTokenMeans(s[0], Text(FormSpelling(s[1..])));
    }
  }

  lemma FormPartIsGood(key: string, value: string)
    requires IsBytes(key) && IsBytes(value) && key != ""
    ensures var w := Written(FormSpelling(key), Some(FormSpelling(value)));
            GoodPart(w) && PartMeaning(w) == (key, value)
  {
    hide TokenText, GoodTokens, Meaning, Text;
    FormSpellingMeans(key);
    FormSpellingMeans(value);
    var w := Written(FormSpelling(key), Some(FormSpelling(value)));
    SomeText(w.key);
    CleanPart(Text(w.key), Text(w.value.value));
  }

  lemma CleanPart(k: string, v: string)
    requires Clean(k) && Clean(v) && k != ""
    ensures var t := k + "=" + v;
            !IsBlank(t[0]) && !IsBlank(t[|t| - 1]) && forall i :: 0 <= i < |t| ==> t[i] != '&'
  {
    var t := k + "=" + v;
    assert forall i :: 0 <= i < |k| ==> t[i] == k[i];
    assert forall i :: |k| < i < |t| ==> t[i] == v[i - |k| - 1];
  }

  /** A form-coded key and value are read back as they were. */
  lemma FormCodedReadsBack(key: string, value: string)
    requires IsBytes(key) && IsBytes(value) && key != ""
    ensures Parse(Text(FormSpelling(key)) + "=" + Text(FormSpelling(value))) == [(key, value)]
  {
    hide GoodPart, PartMeaning, Text, Parse;
    var w := Written(FormSpelling(key), Some(FormSpelling(value)));
    FormPartIsGood(key, value);
    assert Text(FormSpelling(key)) + "=" + Text(FormSpelling(value)) == PartText(w);
    SinglePart(w);
  }

  lemma SinglePart(w: Written)
    requires GoodPart(w)
    ensures Parse(PartText(w)) == [PartMeaning(w)]
  {
    hide GoodPart, PartMeaning, Text, PartText, Parse;
    var ws := [w];
    assert Init(ws) == [] && Joined([]) == "" && Inserted([]) == [];
    assert Joined(ws) == PartText(w);
    ReadAsSpelled(ws);
  }
}
