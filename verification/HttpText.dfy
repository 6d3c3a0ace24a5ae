/** Text helpers of the HTTP layer: character classes, trimming, splitting, searching. A char stands for one byte. */
module HttpText {
  import opened Lists

  const CRLF := "\r\n"
  const DASH := "--"

  predicate IsDigit(c: char) { '0' <= c <= '9' }

  predicate IsAlnum(c: char) { IsDigit(c) || 'A' <= c <= 'Z' || 'a' <= c <= 'z' }

  predicate IsBlank(c: char) { c == ' ' || c == '\t' }

  predicate IsTokenChar(c: char) { IsAlnum(c) || c in "!#$%&'*+-.^_`|~" }

  predicate IsToken(s: string) {
    s != "" && forall i :: 0 <= i < |s| ==> IsTokenChar(s[i])
  }

  /** Visible ASCII, or a byte with the high bit set. */
  predicate IsFieldVChar(c: char) { 33 <= c as int <= 126 || 128 <= c as int }

  /** A field value starts and ends visibly and holds nothing else than visible characters and blanks. */
  predicate IsFieldContent(s: string) {
    s == "" || (IsFieldVChar(s[0]) && IsFieldVChar(s[|s| - 1])
                && forall i :: 0 <= i < |s| ==> IsFieldVChar(s[i]) || IsBlank(s[i]))
  }

  function ToLower(c: char): char {
    if 'A' <= c <= 'Z' then ((c as int) + 32) as char else c
  }

  predicate StartsWithNoCase(s: string, prefix: string) {
    |prefix| <= |s| && forall i :: 0 <= i < |prefix| ==> ToLower(s[i]) == ToLower(prefix[i])
  }

  // ----- Character classes -----

  /** The characters of a token are those that are visible and no delimiter, as section 5.6.2 of RFC 9110 has it. */
  lemma TokenCharIff(c: char)
    ensures IsTokenChar(c) <==> 33 <= c as int <= 126 && c !in "\"(),/:;<=>?@[\\]{}"
  {
  }

  /** A field value holds anything but control characters; the tab is none. */
  lemma FieldCharIff(c: char)
    ensures IsFieldVChar(c) || IsBlank(c) <==> c == '\t' || (32 <= c as int && c as int != 127)
  {
  }

  /** The same letter in either case, or the same character. */
  predicate SameLetter(a: char, b: char) {
    || a == b
    || ('a' <= a <= 'z' && a as int - 'a' as int == b as int - 'A' as int)
    || ('a' <= b <= 'z' && b as int - 'a' as int == a as int - 'A' as int)
  }

  lemma SameLetterIff(a: char, b: char)
    ensures ToLower(a) == ToLower(b) <==> SameLetter(a, b)
  {
  }

  /** A text spelled with letters of either case. */
  predicate Respelled(s: string, t: string) {
    |s| == |t| && forall i :: 0 <= i < |s| ==> SameLetter(s[i], t[i])
  }

  lemma StartsWithRespelled(s: string, t: string, rest: string)
    ensures StartsWithNoCase(s + rest, t) <==> |s + rest| >= |t| && Respelled((s + rest)[..|t|], t)
    ensures Respelled(s, t) ==> StartsWithNoCase(s + rest, t) && (s + rest)[|t|..] == rest
  {
    forall i | 0 <= i < |t| && i < |s + rest|
      ensures ToLower((s + rest)[i]) == ToLower(t[i]) <==> SameLetter((s + rest)[i], t[i])
    {
      SameLetterIff((s + rest)[i], t[i]);
    }
  }

  // ----- Trimming -----

  function TrimLeft(s: string): string {
    if s != "" && IsBlank(s[0]) then TrimLeft(s[1..]) else s
  }

  function TrimRight(s: string): string {
    if s != "" && IsBlank(Last(s)) then TrimRight(Init(s)) else s
  }

  function Trim(s: string): string {
    TrimRight(TrimLeft(s))
  }

  predicate AllBlank(s: string) {
    forall i :: 0 <= i < |s| ==> s[i] == ' ' || s[i] == '\t'
  }

  lemma {:induction false} TrimLeftCuts(s: string)
    ensures var t := TrimLeft(s);
            && |t| <= |s| && s == s[..|s| - |t|] + t && AllBlank(s[..|s| - |t|])
            && (t == "" || (t[0] != ' ' && t[0] != '\t'))
  {
    if s == "" || !IsBlank(s[0]) {
    } else {
      TrimLeftCuts(s[1..]);
      var n := |s| - |TrimLeft(s)|;
      assert s[..n] == [s[0]] + s[1..][..n - 1];
    }
  }

  lemma {:induction false} TrimRightCuts(s: string)
    ensures var t := TrimRight(s);
            && |t| <= |s| && s == t + s[|t|..] && AllBlank(s[|t|..])
            && (t == "" || (Last(t) != ' ' && Last(t) != '\t'))
  {
    if s == "" || !IsBlank(Last(s)) {
    } else {
      TrimRightCuts(Init(s));
      var n := |TrimRight(s)|;
      assert s[n..] == Init(s)[n..] + [Last(s)];
    }
  }

  lemma {:induction false} BlanksSkipped(blanks: string, s: string)
    requires AllBlank(blanks) && (s == "" || !IsBlank(s[0]))
    ensures TrimLeft(blanks + s) == s
  {
    if blanks == "" {
      assert blanks + s == s;
    } else {
      assert (blanks + s)[1..] == blanks[1..] + s;
      BlanksSkipped(blanks[1..], s);
    }
  }

  lemma {:induction false} BlanksDropped(s: string, blanks: string)
    requires AllBlank(blanks) && (s == "" || !IsBlank(Last(s)))
    ensures TrimRight(s + blanks) == s
  {
    if blanks == "" {
      assert s + blanks == s;
    } else {
      assert Init(s + blanks) == s + Init(blanks);
      BlanksDropped(s, Init(blanks));
    }
  }

  /** Trimming is what takes the blanks off both ends and nothing else. */
  lemma TrimIff(s: string, t: string)
    ensures Trim(s) == t <==>
              && (exists left, right :: AllBlank(left) && AllBlank(right) && s == left + t + right)
              && (t == "" || (t[0] != ' ' && t[0] != '\t' && t[|t| - 1] != ' ' && t[|t| - 1] != '\t'))
  {
    TrimLeftCuts(s);
    var u := TrimLeft(s);
    TrimRightCuts(u);
    if Trim(s) == t {
      assert s == s[..|s| - |u|] + t + u[|t|..];
      assert t != "" ==> t[0] == u[0];
    }
    forall left, right | AllBlank(left) && AllBlank(right) && s == left + t + right
      && (t == "" || (t[0] != ' ' && t[0] != '\t' && t[|t| - 1] != ' ' && t[|t| - 1] != '\t'))
      ensures Trim(s) == t
    {
      TrimBlanks(left, t, right);
    }
  }

  lemma TrimBlanks(left: string, t: string, right: string)
    requires AllBlank(left) && AllBlank(right) && (t == "" || (!IsBlank(t[0]) && !IsBlank(Last(t))))
    ensures Trim(left + t + right) == t
  {
    assert left + t + right == left + (t + right);
    if t == "" {
      assert left + (t + right) == (left + right) + "";
      BlanksSkipped(left + right, "");
    } else {
      BlanksSkipped(left, t + right);
      BlanksDropped(t, right);
    }
  }

  /** Text with visible ends is left alone. */
  lemma TrimVisible(s: string)
    requires s != "" && !IsBlank(s[0]) && !IsBlank(s[|s| - 1])
    ensures Trim(s) == s && TrimLeft(s) == s && TrimRight(s) == s
  {
  }

  /** The loop that narrows [left, right) of a longer text: it may run past either end of an all-blank range. */
  method TrimRange(b: string, left: nat, right: nat) returns (l: nat, r: nat)
    requires left <= right <= |b|
    ensures l <= |b| && r <= right && left <= l
    ensures if l < r then b[l..r] == Trim(b[left..right]) else Trim(b[left..right]) == ""
  {
    l, r := left, right;
    while l < |b| && IsBlank(b[l])
      invariant left <= l <= |b|
      invariant l <= right ==> TrimLeft(b[l..right]) == TrimLeft(b[left..right])
      invariant l >= right ==> TrimLeft(b[left..right]) == ""
    {
      if l < right {
        assert b[l..right][1..] == b[l + 1..right];
      }
      l := l + 1;
    }
    if l < right {
      assert TrimLeft(b[l..right]) == b[l..right];
    }
    while r > 0 && IsBlank(b[r - 1])
      invariant r <= right
      invariant l < right ==> l < r && TrimRight(b[l..r]) == TrimRight(b[l..right])
    {
      if l < right {
        assert Init(b[l..r]) == b[l..r - 1];
      }
      r := r - 1;
    }
  }

  method TrimCopy(s: string) returns (t: string)
    ensures t == Trim(s)
  {
    var l, r := TrimRange(s, 0, |s|);
    assert s[0..|s|] == s;
    if l < r {
      return s[l..r];
    }
    return "";
  }

  function Unquote(s: string): string {
    if |s| >= 2 && s[0] == '"' && s[|s| - 1] == '"' then s[1..|s| - 1] else s
  }

  function Quoted(s: string): string { "\"" + s + "\"" }

  /** Quotes are taken off where there is one at either end, and nothing else is. */
  lemma UnquoteIff(s: string, t: string)
    ensures Unquote(s) == t <==> s == Quoted(t) || (s == t && forall u :: s != Quoted(u))
  {
    if |s| >= 2 && s[0] == '"' && s[|s| - 1] == '"' {
      assert s == Quoted(Unquote(s));
      assert Quoted(t)[1..|Quoted(t)| - 1] == t;
    }
  }

  // ----- Splitting -----

  function IndexOf(s: string, d: char): (i: nat)
    ensures i <= |s| && (i < |s| ==> s[i] == d)
    ensures forall k :: 0 <= k < i ==> s[k] != d
  {
    if s == "" || s[0] == d then 0 else 1 + IndexOf(s[1..], d)
  }

  lemma {:induction false} IndexOfIs(s: string, d: char, i: nat)
    requires i <= |s| && (i < |s| ==> s[i] == d)
    requires forall k :: 0 <= k < i ==> s[k] != d
    ensures IndexOf(s, d) == i
  {
    if i == 0 {
    } else {
      IndexOfIs(s[1..], d, i - 1);
    }
  }

  function Kept(s: string): seq<string> {
    if Trim(s) == "" then [] else [Trim(s)]
  }

  lemma NothingKept()
    ensures Kept("") == []
  {
  }

  /** The trimmed, non-empty parts of s between separators. */
  function Pieces(s: string, d: char): seq<string>
    decreases |s|
  {
    var i := IndexOf(s, d);
    if i < |s| then Kept(s[..i]) + Pieces(s[i + 1..], d) else Kept(s)
  }

  lemma PiecesAt(s: string, d: char, i: nat)
    requires i < |s| && s[i] == d && forall k :: 0 <= k < i ==> s[k] != d
    ensures Pieces(s, d) == Kept(s[..i]) + Pieces(s[i + 1..], d)
  {
    IndexOfIs(s, d, i);
  }

  lemma PiecesWhole(s: string, d: char)
    requires forall k :: 0 <= k < |s| ==> s[k] != d
    ensures Pieces(s, d) == Kept(s)
  {
    IndexOfIs(s, d, |s|);
  }

  lemma CutPiece(b: string, d: char, beg: nat, i: nat)
    requires beg <= i < |b| && b[i] == d && forall k :: beg <= k < i ==> b[k] != d
    ensures Pieces(b[beg..], d) == Kept(b[beg..i]) + Pieces(b[i + 1..], d)
  {
    var rest := b[beg..];
    PiecesAt(rest, d, i - beg);
    assert rest[..i - beg] == b[beg..i] && rest[i - beg + 1..] == b[i + 1..];
  }

  /** One round of the loop: the range becomes a piece unless it is blank. */
  method Emit(b: string, beg: nat, i: nat, before: seq<string>) returns (parts: seq<string>)
    requires beg <= i <= |b|
    ensures parts == before + Kept(b[beg..i])
  {
    var l, r := TrimRange(b, beg, i);
    parts := before;
    if l < r {
      parts := before + [b[l..r]];
    }
  }

  method Split(b: string, d: char) returns (parts: seq<string>)
    ensures parts == Pieces(b, d)
  {
    hide Pieces, Kept;
    NothingKept();
    var i, beg := 0, 0;
    parts := [];
    while i < |b|
      invariant 0 <= beg <= i <= |b|
      invariant forall k :: beg <= k < i ==> b[k] != d
      invariant parts + Pieces(b[beg..], d) == Pieces(b, d)
    {
      if b[i] == d {
        CutPiece(b, d, beg, i);
        assert parts + (Kept(b[beg..i]) + Pieces(b[i + 1..], d)) == parts + Kept(b[beg..i]) + Pieces(b[i + 1..], d);
        parts := Emit(b, beg, i, parts);
        beg := i + 1;
      }
      i := i + 1;
    }
    PiecesWhole(b[beg..], d);
    assert b[beg..i] == b[beg..];
    if i > 0 {
      parts := Emit(b, beg, i, parts);
    }
  }

  // ----- Searching -----

  predicate At(t: string, i: nat, d: string) {
    i + |d| <= |t| && t[i..i + |d|] == d
  }

  function FindFrom(t: string, d: string, i: nat): nat
    decreases |t| - i
  {
    if i + |d| > |t| then |t| else if At(t, i, d) then i else FindFrom(t, d, i + 1)
  }

  /** The first position of d in t, or the length of t. */
  function Find(t: string, d: string): nat {
    FindFrom(t, d, 0)
  }

  ghost predicate NoneBefore(t: string, d: string, k: nat) {
    forall i :: 0 <= i < k ==> !At(t, i, d)
  }

  ghost predicate FirstAt(t: string, d: string, k: nat) {
    At(t, k, d) && NoneBefore(t, d, k)
  }

  ghost predicate FreeOf(t: string, d: string) {
    NoneBefore(t, d, |t|)
  }

  lemma {:induction false} FindFromFirst(t: string, d: string, i: nat)
    requires d != "" && i <= |t|
    ensures i <= FindFrom(t, d, i) <= |t|
    ensures FindFrom(t, d, i) < |t| ==> At(t, FindFrom(t, d, i), d)
    ensures forall k :: i <= k < FindFrom(t, d, i) ==> !At(t, k, d)
    decreases |t| - i
  {
    if i + |d| > |t| || At(t, i, d) {
    } else {
      FindFromFirst(t, d, i + 1);
    }
  }

  lemma FindFirst(t: string, d: string)
    requires d != ""
    ensures Find(t, d) <= |t| && NoneBefore(t, d, Find(t, d))
    ensures Find(t, d) < |t| ==> FirstAt(t, d, Find(t, d))
  {
    FindFromFirst(t, d, 0);
  }

  lemma FindIs(t: string, d: string, k: nat)
    requires d != "" && k <= |t| && NoneBefore(t, d, k) && (k < |t| ==> At(t, k, d))
    ensures Find(t, d) == k
  {
    FindFromIs(t, d, 0, k);
  }

  lemma {:induction false} FindFromIs(t: string, d: string, i: nat, k: nat)
    requires d != "" && i <= k <= |t| && (k < |t| ==> At(t, k, d))
    requires forall j :: i <= j < k ==> !At(t, j, d)
    ensures FindFrom(t, d, i) == k
    decreases k - i
  {
    if i + |d| > |t| || i == k {
    } else {
      FindFromIs(t, d, i + 1, k);
    }
  }

  /** Looking for the delimiter in the part of a text that has arrived. */
  lemma FindInPrefix(t: string, d: string, k: nat, n: nat)
    requires d != "" && FirstAt(t, d, k) && n <= |t|
    ensures Find(t[..n], d) == if k + |d| <= n then k else n
  {
    forall i | 0 <= i < (if k + |d| <= n then k else n)
      ensures !At(t[..n], i, d)
    {
      if i + |d| <= n {
        assert t[..n][i..i + |d|] == t[i..i + |d|];
        assert !At(t, i, d);
      }
    }
    if k + |d| <= n {
      assert t[..n][k..k + |d|] == t[k..k + |d|];
    }
    FindIs(t[..n], d, if k + |d| <= n then k else n);
  }

  /** A delimiter with a carriage return only in front cannot start inside the text before it. */
  lemma DelimiterIsFirst(a: string, d: string, z: string)
    requires d != "" && d[0] == '\r' && (forall j :: 0 < j < |d| ==> d[j] != '\r') && FreeOf(a, d)
    ensures FirstAt(a + d + z, d, |a|)
  {
    var t := a + d + z;
    forall i | 0 <= i < |a|
      ensures !At(t, i, d)
    {
      if i + |d| <= |a| {
        assert a[i..i + |d|] == t[i..i + |d|];
        assert !At(a, i, d);
      } else if i + |d| <= |t| {
        assert t[i..i + |d|][|a| - i] == t[|a|] == d[0];
      }
    }
    assert t[|a|..|a| + |d|] == d;
  }

  lemma FreeSuffix(a: string, d: string, n: nat)
    requires n <= |a| && FreeOf(a, d)
    ensures FreeOf(a[n..], d)
  {
    forall i | 0 <= i < |a| - n
      ensures !At(a[n..], i, d)
    {
      assert !At(a, n + i, d);
      if n + i + |d| <= |a| {
        assert a[n..][i..i + |d|] == a[n + i..n + i + |d|];
      }
    }
  }

  lemma FreeWithoutFirst(a: string, d: string)
    requires d != "" && forall i :: 0 <= i < |a| ==> a[i] != d[0]
    ensures FreeOf(a, d)
  {
    forall i | 0 <= i < |a|
      ensures !At(a, i, d)
    {
      if i + |d| <= |a| {
        assert a[i..i + |d|][0] == a[i];
      }
    }
  }
}
