/** The few Python string operations the pipeline relies on: whitespace stripping
    (`str.strip()`), joining with a separator (`str.join`) and decimal rendering of
    integers (`f"{n}"`). */
module Text {

  /** Python's `str.isspace` for one character: the ASCII controls tab to carriage return,
      the four information separators, space, and the Unicode space and line/paragraph
      separators. */
  predicate IsSpace(c: char)
  {
    || c == ' '
    || ('\t' <= c <= '\r')
    || ('\U{1C}' <= c <= '\U{1F}')
    || c == '\U{85}' || c == '\U{A0}' || c == '\U{1680}'
    || ('\U{2000}' <= c <= '\U{200A}')
    || c == '\U{2028}' || c == '\U{2029}' || c == '\U{202F}' || c == '\U{205F}'
    || c == '\U{3000}'
  }

  /** A string made only of whitespace (the empty string included). */
  predicate IsBlank(s: string)
  {
    forall i :: 0 <= i < |s| ==> IsSpace(s[i])
  }

  /** `s` without its leading whitespace. */
  function TrimStart(s: string): (r: string)
    ensures |r| <= |s| && r == s[|s| - |r|..]
    ensures IsBlank(s[..|s| - |r|])
    ensures r == [] || !IsSpace(r[0])
  {
    if s != [] && IsSpace(s[0]) then
      var r := TrimStart(s[1..]);
      assert s[..|s| - |r|] == [s[0]] + s[1..][..|s| - 1 - |r|];
      assert s[|s| - |r|..] == s[1..][|s| - 1 - |r|..];
      r
    else s
  }

  /** `s` without its trailing whitespace. */
  function TrimEnd(s: string): (r: string)
    ensures |r| <= |s| && r == s[..|r|]
    ensures IsBlank(s[|r|..])
    ensures r == [] || !IsSpace(r[|r| - 1])
  {
    if s != [] && IsSpace(s[|s| - 1]) then
      var r := TrimEnd(s[..|s| - 1]);
      assert s[|r|..] == s[..|s| - 1][|r|..] + [s[|s| - 1]];
      r
    else s
  }

  /** Python's `s.strip()`: the longest infix of `s` that neither starts nor ends with
      whitespace, everything cut off on either side being whitespace. */
  function Strip(s: string): (r: string)
    ensures |r| <= |s|
    ensures r == [] || (!IsSpace(r[0]) && !IsSpace(r[|r| - 1]))
  {
    TrimEnd(TrimStart(s))
  }

  /** `s.strip()` is the infix of `s` starting at `k`, and what lies before and after it is
      whitespace. */
  lemma StripInfix(s: string) returns (k: nat)
    ensures k + |Strip(s)| <= |s| && Strip(s) == s[k..k + |Strip(s)|]
    ensures IsBlank(s[..k]) && IsBlank(s[k + |Strip(s)|..])
  {
    var t := TrimStart(s);
    var r := TrimEnd(t);
    k := |s| - |t|;
    SuffixSlices(s, k, t, |r|);
  }

  /** Slices of a suffix `t` of `s` starting at `k` are slices of `s` shifted by `k`. */
  lemma SuffixSlices(s: string, k: nat, t: string, m: nat)
    requires k <= |s| && t == s[k..] && m <= |t|
    ensures t[..m] == s[k..k + m] && t[m..] == s[k + m..]
  {
  }

  /** `s.strip()` is empty exactly when `s` is blank, so `not s.strip()` tests blankness. */
  lemma StripEmptyIffBlank(s: string)
    ensures Strip(s) == [] <==> IsBlank(s)
  {
    var t := TrimStart(s);
    if Strip(s) == [] {
      assert IsBlank(t[0..]);
      assert s[..|s|] == s;
    }
  }

  /** Trailing whitespace is taken from the last part only, as long as that part holds a
      non-whitespace character. */
  lemma {:induction false} TrimEndAppend(x: string, y: string)
    requires !IsBlank(y)
    ensures TrimEnd(x + y) == x + TrimEnd(y)
  {
    var xy := x + y;
    assert xy[|xy| - 1] == y[|y| - 1];
    if IsSpace(y[|y| - 1]) {
      var y' := y[..|y| - 1];
      assert !IsBlank(y') by {
        var i :| 0 <= i < |y| && !IsSpace(y[i]);
        assert i < |y| - 1 && y'[i] == y[i];
      }
      assert xy[..|xy| - 1] == x + y';
      TrimEndAppend(x, y');
    }
  }

  /** A part ending in a non-whitespace character is never trimmed into. */
  lemma {:induction false} TrimEndAfterNonSpace(x: string, y: string)
    requires x != [] && !IsSpace(x[|x| - 1])
    ensures TrimEnd(x + y) == x + TrimEnd(y)
  {
    var xy := x + y;
    if y == [] {
      assert xy == x;
    } else {
      assert xy[|xy| - 1] == y[|y| - 1];
      if IsSpace(y[|y| - 1]) {
        assert xy[..|xy| - 1] == x + y[..|y| - 1];
        TrimEndDropSpace(xy);
        TrimEndDropSpace(y);
        TrimEndAfterNonSpace(x, y[..|y| - 1]);
      }
    }
  }

  /** A string ending in whitespace trims like the string without that last character. */
  lemma TrimEndDropSpace(s: string)
    requires s != [] && IsSpace(s[|s| - 1])
    ensures TrimEnd(s) == TrimEnd(s[..|s| - 1])
  {
  }

  /** A blank string trims to nothing. */
  lemma TrimEndBlank(s: string)
    requires IsBlank(s)
    ensures TrimEnd(s) == []
  {
  }

  /** Concatenation is associative. */
  lemma ConcatAssoc(a: string, b: string, c: string)
    ensures (a + b) + c == a + (b + c)
  {
  }

  /** A string that starts with a non-whitespace character loses only trailing whitespace. */
  lemma StripNonSpaceStart(s: string)
    requires s != [] && !IsSpace(s[0])
    ensures Strip(s) == TrimEnd(s)
  {
  }

  /** Python's `sep.join(parts)`. */
  function Join(sep: string, parts: seq<string>): (r: string)
  {
    if parts == [] then ""
    else if |parts| == 1 then parts[0]
    else parts[0] + sep + Join(sep, parts[1..])
  }

  /** Joining one more part adds one separator and the part at the end. */
  lemma {:induction false} JoinSnoc(sep: string, parts: seq<string>, last: string)
    requires parts != []
    ensures Join(sep, parts + [last]) == Join(sep, parts) + sep + last
  {
    var ps := parts + [last];
    assert ps[0] == parts[0] && ps[1..] == parts[1..] + [last];
    if |parts| > 1 {
      JoinSnoc(sep, parts[1..], last);
    }
  }

  /** The summed length of `parts`. */
  function TotalLength(parts: seq<string>): (n: nat)
  {
    if parts == [] then 0 else |parts[0]| + TotalLength(parts[1..])
  }

  /** Joining n parts inserts exactly n - 1 separators and nothing else. */
  lemma {:induction false} JoinLength(sep: string, parts: seq<string>)
    requires parts != []
    ensures |Join(sep, parts)| == TotalLength(parts) + (|parts| - 1) * |sep|
  {
    if |parts| > 1 {
      JoinLength(sep, parts[1..]);
      calc {
        |Join(sep, parts)|;
        |parts[0]| + |sep| + |Join(sep, parts[1..])|;
        |parts[0]| + |sep| + TotalLength(parts[1..]) + (|parts| - 2) * |sep|;
        { assert |sep| + (|parts| - 2) * |sep| == (|parts| - 1) * |sep|; }
        TotalLength(parts) + (|parts| - 1) * |sep|;
      }
    }
  }

  /** The character of decimal digit `d`. */
  function DigitChar(d: nat): (c: char)
    requires d < 10
    ensures '0' <= c <= '9' && c as int - '0' as int == d
  {
    (d + '0' as int) as char
  }

  /** The decimal digits of `n`, most significant first, without leading zeros
      (Python's `str(n)` for a non-negative integer). */
  function NatToDecimal(n: nat): (r: string)
    ensures r != []
    ensures forall i :: 0 <= i < |r| ==> '0' <= r[i] <= '9'
    ensures |r| > 1 ==> r[0] != '0'
  {
    if n < 10 then [DigitChar(n)] else NatToDecimal(n / 10) + [DigitChar(n % 10)]
  }

  /** Python's `str(i)` for an integer: a minus sign before the digits of a negative one. */
  function IntToDecimal(i: int): (r: string)
    ensures r != []
    ensures r[0] == '-' <==> i < 0
  {
    if i < 0 then "-" + NatToDecimal(-i) else NatToDecimal(i)
  }

  /** The number a string of decimal digits denotes. */
  function DecimalValue(s: string): (n: nat)
    requires forall i :: 0 <= i < |s| ==> '0' <= s[i] <= '9'
  {
    if s == [] then 0
    else DecimalValue(s[..|s| - 1]) * 10 + (s[|s| - 1] as int - '0' as int)
  }

  /** Rendering a number in decimal loses nothing: reading the digits back gives it. */
  lemma {:induction false} NatToDecimalRoundTrip(n: nat)
    ensures DecimalValue(NatToDecimal(n)) == n
  {
    var r := NatToDecimal(n);
    if n >= 10 {
      NatToDecimalRoundTrip(n / 10);
      assert r[..|r| - 1] == NatToDecimal(n / 10);
    }
  }
}
