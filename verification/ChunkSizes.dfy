/** Which number a chunk's size line gives, in all the forms that strtoul takes. */
module ChunkSizes {
  import opened Lists
  import opened HttpText
  import opened Chunked
  import Query

  // ----- Digits -----

  predicate IsHex(s: string) {
    forall i :: 0 <= i < |s| ==> Query.HexDigit(s[i]).Some?
  }

  lemma {:induction false} HexIsHex(n: nat)
    ensures Hex(n) != "" && IsHex(Hex(n)) && HexNumber(Hex(n)) == n
    ensures Hex(n)[0] == '0' ==> n == 0 && Hex(n) == "0"
  {
    if n < 16 {
      assert Init(Hex(n)) == "";
    } else {
      HexIsHex(n / 16);
      assert Init(Hex(n)) == Hex(n / 16) && Last(Hex(n)) == HexChar(n % 16);
    }
  }

  function Power(k: nat): nat {
    if k == 0 then 1 else 16 * Power(k - 1)
  }

  lemma PowerOf16()
    ensures Power(16) == ULONG_MAX + 1
  {
    assert Power(2) == 0x100;
    assert Power(4) == 0x1_0000;
    assert Power(6) == 0x100_0000;
    assert Power(8) == 0x1_0000_0000;
    assert Power(10) == 0x100_0000_0000;
    assert Power(12) == 0x1_0000_0000_0000;
    assert Power(14) == 0x100_0000_0000_0000;
  }

  lemma {:induction false} HexIsShort(n: nat, k: nat)
    requires 0 < k && n < Power(k)
    ensures |Hex(n)| <= k
  {
    if n < 16 {
    } else {
      assert k > 1 by {
        assert Power(1) == 16 * Power(0) == 16;
      }
      HexIsShort(n / 16, k - 1);
    }
  }

  lemma {:induction false} WholeRun(digits: string, z: string)
    requires IsHex(digits) && (z == "" || Query.HexDigit(z[0]).None?)
    ensures HexRun(digits + z) == |digits|
  {
    if digits == "" {
      assert digits + z == z;
    } else {
      assert (digits + z)[1..] == digits[1..] + z;
      WholeRun(digits[1..], z);
    }
  }

  // ----- The forms that are read -----

  predicate AllSpace(s: string) {
    forall i :: 0 <= i < |s| ==> s[i] == ' ' || s[i] == '\t' || s[i] == '\n' || s[i] == '\r' || s[i] as int in {11, 12}
  }

  lemma {:induction false} SpacesSkipped(spaces: string, rest: string)
    requires AllSpace(spaces) && (rest == "" || !IsSpace(rest[0]))
    ensures SkipSpaces(spaces + rest) == rest
  {
    if spaces == "" {
      assert spaces + rest == rest;
    } else {
      assert (spaces + rest)[1..] == spaces[1..] + rest;
      SpacesSkipped(spaces[1..], rest);
    }
  }

  lemma CStringBehind(a: string, z: string)
    requires forall i :: 0 <= i < |a| ==> a[i] != '\0'
    ensures CString(a + z) == a + CString(z)
  {
    var t, n := a + z, IndexOf(z, '\0');
    assert forall i :: |a| <= i < |t| ==> t[i] == z[i - |a|];
    IndexOfIs(t, '\0', |a| + n);
  }

  /** Neither more digits follow, nor is a lone zero the start of a prefix. */
  predicate EndsNumber(prefix: string, digits: string, z: string) {
    && (z == "" || Query.HexDigit(z[0]).None?)
    && !(prefix == "" && digits == "0" && |z| >= 2 && (z[0] == 'x' || z[0] == 'X') && Query.HexDigit(z[1]).Some?)
  }

  function Limited(n: nat, negated: bool): nat {
    if n > ULONG_MAX then ULONG_MAX else if negated && n > 0 then ULONG_MAX + 1 - n else n
  }

  lemma CutZ(prefix: string, digits: string, z: string)
    requires EndsNumber(prefix, digits, z)
    ensures EndsNumber(prefix, digits, CString(z))
  {
    assert CString(z) != "" ==> CString(z)[0] == z[0];
    assert |CString(z)| >= 2 ==> CString(z)[1] == z[1];
  }

  lemma HexIsVisible(s: string)
    requires IsHex(s)
    ensures forall i :: 0 <= i < |s| ==> s[i] != '\0' && !IsSpace(s[i]) && s[i] != '-' && s[i] != '+'
  {
  }

  /** The digits behind an optional prefix, whatever follows that is no digit. */
  lemma NumberBehindPrefix(prefix: string, digits: string, z: string)
    requires prefix in {"", "0x", "0X"} && digits != "" && IsHex(digits) && EndsNumber(prefix, digits, z)
    ensures var v := BehindPrefix(prefix + digits + z); HexRun(v) == |digits| && v[..|digits|] == digits
  {
    hide Query.HexDigit;
    var u := prefix + digits + z;
    XIsNoDigit();
    if prefix == "" {
      assert u == digits + z;
      assert |digits| >= 2 ==> u[1] == digits[1];
      assert |digits| == 1 && |z| >= 1 ==> u[1] == z[0];
      assert |digits| == 1 && |z| >= 2 ==> u[2] == z[1];
      assert |digits| == 1 && u[0] == '0' ==> digits == "0";
    } else {
      assert u[0] == '0' && u[1] == prefix[1] && u[2] == digits[0];
      assert u[2..] == digits + z;
    }
    WholeRun(digits, z);
    assert (digits + z)[..|digits|] == digits;
  }

  lemma XIsNoDigit()
    ensures Query.HexDigit('x').None? && Query.HexDigit('X').None?
  {
  }

  /** White space, a sign, a prefix and digits, in upper or lower case and with any number of leading zeros, give the
      number of the digits, whatever follows them: chunk extensions, blanks, the line end. */
  lemma SizeIsItsDigits(spaces: string, sign: string, prefix: string, digits: string, z: string)
    requires AllSpace(spaces) && sign in {"", "+", "-"} && prefix in {"", "0x", "0X"}
    requires digits != "" && IsHex(digits) && EndsNumber(prefix, digits, z)
    ensures StrToUl16(spaces + sign + prefix + digits + z) == Some(Limited(HexNumber(digits), sign == "-"))
  {
    hide HexNumber, CString, HexRun, Query.HexDigit, StrToUl16, SkipSpaces;
    var head, rest := spaces + sign + prefix + digits, prefix + digits + CString(z);
    HeadIsVisible(spaces, sign, prefix, digits);
    CutZ(prefix, digits, z);
    CStringBehind(head, z);
    assert head + CString(z) == spaces + (sign + rest);
    FirstIsVisible(sign, prefix, digits, CString(z));
    SpacesSkipped(spaces, sign + rest);
    NumberBehindPrefix(prefix, digits, CString(z));
    NumberBehindSign(head + z, sign, prefix, digits, CString(z));
  }

  lemma HeadIsVisible(spaces: string, sign: string, prefix: string, digits: string)
    requires AllSpace(spaces) && sign in {"", "+", "-"} && prefix in {"", "0x", "0X"} && IsHex(digits)
    ensures var head := spaces + sign + prefix + digits; forall i :: 0 <= i < |head| ==> head[i] != '\0'
  {
    HexIsVisible(digits);
    assert forall i :: 0 <= i < |prefix| ==> prefix[i] != '\0';
    assert forall i :: 0 <= i < |sign| ==> sign[i] != '\0';
  }

  lemma NumberBehindSign(line: string, sign: string, prefix: string, digits: string, z: string)
    requires sign in {"", "+", "-"} && prefix in {"", "0x", "0X"} && digits != "" && IsHex(digits)
    requires EndsNumber(prefix, digits, z) && SkipSpaces(CString(line)) == sign + (prefix + digits + z)
    ensures StrToUl16(line) == Some(Limited(HexNumber(digits), sign == "-"))
  {
    hide HexNumber, CString, HexRun, Query.HexDigit, SkipSpaces, BehindPrefix;
    var rest := prefix + digits + z;
    var t := sign + rest;
    FirstIsVisible(sign, prefix, digits, z);
    NumberBehindPrefix(prefix, digits, z);
    hide IsHex, EndsNumber;
    if sign == "" {
      assert t == rest;
    } else {
      assert t[1..] == rest && t[0] == sign[0];
    }
  }

  lemma FirstIsVisible(sign: string, prefix: string, digits: string, z: string)
    requires sign in {"", "+", "-"} && prefix in {"", "0x", "0X"} && digits != "" && IsHex(digits)
    ensures var t := sign + (prefix + digits + z);
            && t != "" && !IsSpace(t[0]) && ((t[0] == '-' || t[0] == '+') <==> sign != "")
            && (sign != "" ==> t[0] == sign[0])
  {
    HexIsVisible(digits);
  }

  /** Without a digit there is no number. */
  lemma NoDigitNoSize(spaces: string, sign: string, z: string)
    requires AllSpace(spaces) && sign in {"", "+", "-"} && (z == "" || Query.HexDigit(z[0]).None?)
    requires sign == "" && z != "" ==> !IsSpace(z[0]) && z[0] != '+' && z[0] != '-'
    ensures StrToUl16(spaces + sign + z) == None
  {
    hide HexNumber, CString, Query.HexDigit;
    var head, u := spaces + sign, CString(z);
    assert forall i :: 0 <= i < |head| ==> head[i] != '\0';
    CStringBehind(head, z);
    assert head + u == spaces + (sign + u);
    CutHead(z);
    SpacesSkipped(spaces, sign + u);
    assert sign != "" ==> (sign + u)[1..] == u;
    ZeroIsDigit();
  }

  lemma CutHead(z: string)
    ensures CString(z) != "" ==> z != "" && CString(z)[0] == z[0]
  {
  }

  lemma ZeroIsDigit()
    ensures Query.HexDigit('0').Some?
  {
  }

  /** Reading a size line gives the number it was written from. */
  lemma SizeLineReadsBack(n: nat)
    requires n < ULONG_MAX
    ensures StrToUl16(Hex(n) + CRLF) == Some(n)
  {
    hide Hex, HexNumber, StrToUl16;
    HexIsHex(n);
    assert "" + "" + "" + Hex(n) + CRLF == Hex(n) + CRLF;
    SizeIsItsDigits("", "", "", Hex(n), CRLF);
  }
}
