/** How a stream falls into lines: what reading line by line gives for any text. */
module Lines {
  import opened HttpText
  import opened Streams

  /** A text that ends with its only line end, within the limit. */
  ghost predicate IsLine(l: string) {
    2 <= |l| <= MAX_LINE_LENGTH && FirstAt(l, CRLF, |l| - 2)
  }

  /** A text in which the reader finds no line end before it gives up. */
  ghost predicate Unended(t: string) {
    if |t| < MAX_LINE_LENGTH then FreeOf(t, CRLF) else NoLineEnd(t, MAX_LINE_LENGTH)
  }

  lemma LineInFront(l: string, z: string, broken: bool)
    requires IsLine(l)
    ensures LineOf(l + z, broken) == NextLine(true, l, z)
  {
    var t, n := l + z, |l| - 2;
    assert t[n..n + 2] == l[n..n + 2];
    forall i | 0 <= i < n
      ensures !At(t, i, CRLF)
    {
      assert t[i..i + 2] == l[i..i + 2];
      assert !At(l, i, CRLF);
    }
    FindIs(t, CRLF, n);
    assert t[..n + 2] == l && t[n + 2..] == z;
  }

  lemma NoLineInFront(t: string, broken: bool)
    requires Unended(t)
    ensures LineOf(t, broken) ==
            if |t| >= MAX_LINE_LENGTH then NextLine(false, t[..MAX_LINE_LENGTH], t[MAX_LINE_LENGTH..])
            else NextLine(t != "" && !broken, t, "")
  {
    FindFirst(t, CRLF);
    if |t| < MAX_LINE_LENGTH {
      FindIs(t, CRLF, |t|);
    } else {
      LineTooLong(t, broken);
    }
  }

  /** Every text begins with a line, or the reader finds no line end in it. */
  lemma LineOrNone(t: string, broken: bool)
    ensures var l := LineOf(t, broken);
            Unended(t) || (l.ok && IsLine(l.text) && t == l.text + l.rest)
  {
    FindFirst(t, CRLF);
    var i := Find(t, CRLF);
    if i < |t| && i + 2 <= MAX_LINE_LENGTH {
      var l := t[..i + 2];
      assert l[i..i + 2] == t[i..i + 2];
      forall k | 0 <= k < i
        ensures !At(l, k, CRLF)
      {
        assert l[k..k + 2] == t[k..k + 2];
        assert !At(t, k, CRLF);
      }
    } else if |t| < MAX_LINE_LENGTH {
    } else {
      forall k | 0 <= k && k + 2 <= MAX_LINE_LENGTH
        ensures !At(t, k, CRLF)
      {
        assert k < i;
      }
    }
  }

  // ----- Line after line -----

  datatype AllRead = AllRead(lines: seq<string>, rest: string)

  /** The lines read until there is none, and what is then left on the stream. */
  function ReadLines(t: string, broken: bool): AllRead
    decreases |t|
  {
    var l := LineOf(t, broken);
    ReadShrinks(t, broken);
    if l.ok then
      var more := ReadLines(l.rest, broken);
      AllRead([l.text] + more.lines, more.rest)
    else AllRead([], l.rest)
  }

  lemma ReadShrinks(t: string, broken: bool)
    ensures LineOf(t, broken).ok ==> |LineOf(t, broken).rest| < |t|
  {
    FindFirst(t, CRLF);
  }

  /** Lines are read one by one; an unfinished one at the end counts as a line exactly if the stream ends there, and
      one that is too long stops the reader. */
  lemma {:induction false} LinesReadBack(lines: seq<string>, last: string, broken: bool)
    requires (forall i :: 0 <= i < |lines| ==> IsLine(lines[i])) && Unended(last)
    ensures ReadLines(Concat(lines) + last, broken) ==
            if |last| >= MAX_LINE_LENGTH then AllRead(lines, last[MAX_LINE_LENGTH..])
            else if last != "" && !broken then AllRead(lines + [last], "")
            else AllRead(lines, "")
    decreases |lines|
  {
    hide LineOf, IsLine;
    if lines == [] {
      assert Concat(lines) + last == last;
      NoLineInFront(last, broken);
      NothingUnended();
      NoLineInFront("", broken);
      assert [] + [last] == [last] + [];
    } else {
      var z := Concat(lines[1..]) + last;
      assert Concat(lines) + last == lines[0] + z;
      LineInFront(lines[0], z, broken);
      LinesReadBack(lines[1..], last, broken);
      assert [lines[0]] + lines[1..] == lines && [lines[0]] + (lines[1..] + [last]) == lines + [last];
    }
  }

  lemma NothingUnended()
    ensures Unended("")
  {
  }

  /** And every text is such a sequence of lines. */
  lemma {:induction false} EveryTextIsLines(t: string) returns (lines: seq<string>, last: string)
    ensures (forall i :: 0 <= i < |lines| ==> IsLine(lines[i])) && Unended(last) && t == Concat(lines) + last
    decreases |t|
  {
    hide LineOf, IsLine, Unended;
    LineOrNone(t, true);
    var l := LineOf(t, true);
    if Unended(t) {
      lines, last := [], t;
      assert Concat(lines) + last == t;
    } else {
      ReadShrinks(t, true);
      var more;
      more, last := EveryTextIsLines(l.rest);
      lines := [l.text] + more;
      assert lines[1..] == more;
      assert l.text + (Concat(more) + last) == l.text + Concat(more) + last;
    }
  }
}
