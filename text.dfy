/** The string operations of the .NET runtime that the form relies on:
    `String.Trim()`, `String.TrimEnd(char)`, the decimal rendering of an
    `int` in an interpolated string, and the splitting a server applies to
    a request target. */
module Text {
  import opened Wrappers

  /** The characters `char.IsWhiteSpace` accepts: the Unicode space, line
      and paragraph separators together with U+0009..U+000D and U+0085. */
  const WhiteSpace: set<char> := {
    '\t', '\n', '\U{000B}', '\U{000C}', '\r', ' ', '\U{0085}', '\U{00A0}', '\U{1680}',
    '\U{2000}', '\U{2001}', '\U{2002}', '\U{2003}', '\U{2004}', '\U{2005}',
    '\U{2006}', '\U{2007}', '\U{2008}', '\U{2009}', '\U{200A}',
    '\U{2028}', '\U{2029}', '\U{202F}', '\U{205F}', '\U{3000}'
  }

  predicate IsWhiteSpace(c: char)
  {
    c in WhiteSpace
  }

  predicate IsDigit(c: char)
  {
    '0' <= c <= '9'
  }

  /** Removes every trailing character that is in `trimChars`, and nothing else. */
  function TrimEndBy(s: string, trimChars: set<char>): (r: string)
    ensures |r| <= |s| && r == s[..|r|]
    ensures forall i :: |r| <= i < |s| ==> s[i] in trimChars
    ensures r == [] || r[|r| - 1] !in trimChars
  {
    if s == [] || s[|s| - 1] !in trimChars then s else TrimEndBy(s[..|s| - 1], trimChars)
  }

  /** Removes every leading character that is in `trimChars`, and nothing else. */
  function TrimStartBy(s: string, trimChars: set<char>): (r: string)
    ensures |r| <= |s| && r == s[|s| - |r|..]
    ensures forall i :: 0 <= i < |s| - |r| ==> s[i] in trimChars
    ensures r == [] || r[0] !in trimChars
  {
    if s == [] || s[0] !in trimChars then s else TrimStartBy(s[1..], trimChars)
  }

  /** The three properties of `TrimEndBy` pin its result down: no shorter
      and no longer prefix has them. */
  lemma TrimEndByUnique(s: string, trimChars: set<char>, r: string)
    requires |r| <= |s| && r == s[..|r|]
    requires forall i :: |r| <= i < |s| ==> s[i] in trimChars
    requires r == [] || r[|r| - 1] !in trimChars
    ensures r == TrimEndBy(s, trimChars)
  {
  }

  /** Trimming a second time changes nothing. */
  lemma TrimEndByIdempotent(s: string, trimChars: set<char>)
    ensures TrimEndBy(TrimEndBy(s, trimChars), trimChars) == TrimEndBy(s, trimChars)
  {
  }

  /** Only characters of `trimChars` come before position `a` and from
      position `b` on. */
  predicate OnlyAround(s: string, trimChars: set<char>, a: int, b: int)
  {
    0 <= a <= b <= |s|
    && (forall i :: 0 <= i < a ==> s[i] in trimChars)
    && (forall i :: b <= i < |s| ==> s[i] in trimChars)
  }

  /** `String.Trim()`: white space removed from both ends. What is left is
      no longer than the text and, unless empty, starts and ends with
      something other than white space; `TrimKeepsMiddle` shows it is the
      text itself with only white space cut from around it. */
  function Trim(s: string): (r: string)
    ensures |r| <= |s|
    ensures r == [] || (!IsWhiteSpace(r[0]) && !IsWhiteSpace(r[|r| - 1]))
  {
    var e := TrimEndBy(s, WhiteSpace);
    var r := TrimStartBy(e, WhiteSpace);
    assert r == [] || r[|r| - 1] == e[|e| - 1];
    r
  }

  /** Nothing but white space is cut: the trimmed text is a stretch
      `s[a..b]` of the text with only white space before and after it. */
  lemma TrimKeepsMiddle(s: string)
    ensures exists a, b :: OnlyAround(s, WhiteSpace, a, b) && Trim(s) == s[a..b]
  {
    TrimBothEndsBy(s, WhiteSpace);
  }

  /** Trimming the end and then the start leaves a stretch of the text with
      only trimmed characters around it. */
  lemma TrimBothEndsBy(s: string, trimChars: set<char>)
    ensures exists a, b :: OnlyAround(s, trimChars, a, b)
              && TrimStartBy(TrimEndBy(s, trimChars), trimChars) == s[a..b]
  {
    var e := TrimEndBy(s, trimChars);
    var r := TrimStartBy(e, trimChars);
    var k := |e| - |r|;
    assert r == e[k..];
    assert r == s[k..|e|];
    forall i | 0 <= i < k ensures s[i] in trimChars {
      assert s[i] == e[i];
    }
    assert OnlyAround(s, trimChars, k, |e|);
  }

  /** `string.IsNullOrEmpty(text.Trim())` holds exactly when the text is
      made of white space only. */
  lemma {:induction false} TrimEmptyIff(s: string)
    ensures Trim(s) == [] <==> forall i :: 0 <= i < |s| ==> IsWhiteSpace(s[i])
  {
    var e := TrimEndBy(s, WhiteSpace);
    if Trim(s) == [] {
      forall i | 0 <= i < |s| ensures IsWhiteSpace(s[i]) {
        if i < |e| {
          assert s[i] == e[i];
        }
      }
    } else {
      assert e != [];
      assert !IsWhiteSpace(s[|e| - 1]) by {
        assert e[|e| - 1] == s[|e| - 1];
      }
    }
  }

  /** A trimmed text that is not empty comes from a text holding something
      other than white space, and starts and ends with such a character. */
  lemma TrimNonEmpty(s: string)
    requires Trim(s) != []
    ensures var r := Trim(s); !IsWhiteSpace(r[0]) && !IsWhiteSpace(r[|r| - 1])
    ensures exists i :: 0 <= i < |s| && !IsWhiteSpace(s[i])
  {
    TrimEmptyIff(s);
  }

  function DigitChar(d: nat): (c: char)
    requires d < 10
    ensures IsDigit(c)
  {
    ('0' as int + d) as char
  }

  function DigitValue(c: char): (d: nat)
    requires IsDigit(c)
    ensures d < 10 && DigitChar(d) == c
  {
    c as int - '0' as int
  }

  /** The decimal digits of `n`, most significant first, without leading zeros. */
  function NatDigits(n: nat): (s: string)
    ensures |s| >= 1 && forall i :: 0 <= i < |s| ==> IsDigit(s[i])
    ensures |s| > 1 ==> s[0] != '0'
    decreases n
  {
    if n < 10 then [DigitChar(n)] else NatDigits(n / 10) + [DigitChar(n % 10)]
  }

  /** How `{n}` renders an `int` in an interpolated string: an optional
      minus sign followed by the decimal digits. */
  function Decimal(n: int): (s: string)
    ensures |s| >= 1
    ensures s[0] == '-' <==> n < 0
    ensures forall i :: 0 <= i < |s| ==> IsDigit(s[i]) || (i == 0 && s[i] == '-')
  {
    if n < 0 then "-" + NatDigits(-n) else NatDigits(n)
  }

  function DigitsValue(s: string): nat
    requires s != [] && forall i :: 0 <= i < |s| ==> IsDigit(s[i])
  {
    if |s| == 1 then DigitValue(s[0])
    else DigitsValue(s[..|s| - 1]) * 10 + DigitValue(s[|s| - 1])
  }

  /** Reads back an optional minus sign followed by one or more digits. */
  function ParseDecimal(s: string): Option<int>
  {
    var neg := |s| > 0 && s[0] == '-';
    var digits := if neg then s[1..] else s;
    if digits == [] || exists i :: 0 <= i < |digits| && !IsDigit(digits[i]) then None
    else if neg then Some(0 - DigitsValue(digits))
    else Some(DigitsValue(digits))
  }

  lemma {:induction false} NatDigitsValue(n: nat)
    ensures DigitsValue(NatDigits(n)) == n
    decreases n
  {
    if n >= 10 {
      var s := NatDigits(n);
      assert s[..|s| - 1] == NatDigits(n / 10);
      NatDigitsValue(n / 10);
    }
  }

  /** Every rendered integer reads back as itself. */
  lemma DecimalRoundTrip(n: int)
    ensures ParseDecimal(Decimal(n)) == Some(n)
  {
    if n < 0 {
      var d := NatDigits(-n);
      assert Decimal(n) == "-" + d;
      NatDigitsValue(-n);
      ParseNegative(d);
    } else {
      var d := NatDigits(n);
      assert Decimal(n) == d;
      NatDigitsValue(n);
      ParseUnsigned(d);
    }
  }

  lemma ParseUnsigned(s: string)
    requires s != [] && forall i :: 0 <= i < |s| ==> IsDigit(s[i])
    ensures ParseDecimal(s) == Some(DigitsValue(s))
  {
  }

  lemma ParseNegative(s: string)
    requires s != [] && forall i :: 0 <= i < |s| ==> IsDigit(s[i])
    ensures ParseDecimal("-" + s) == Some(0 - DigitsValue(s))
  {
    assert ("-" + s)[1..] == s;
  }

  /** Splits at the first `sep`: the part before it, and the part after it
      when there is one. */
  function SplitFirst(s: string, sep: char): (r: (string, Option<string>))
    ensures sep !in r.0
    ensures r.1.None? ==> r.0 == s
    ensures r.1.Some? ==> s == r.0 + [sep] + r.1.value
  {
    if s == [] then (s, None)
    else if s[0] == sep then ([], Some(s[1..]))
    else
      var (before, after) := SplitFirst(s[1..], sep);
      ([s[0]] + before, after)
  }

  /** Joining at a separator absent from the first part is undone by `SplitFirst`. */
  lemma {:induction false} SplitFirstJoin(a: string, sep: char, b: string)
    requires sep !in a
    ensures SplitFirst(a + [sep] + b, sep) == (a, Some(b))
  {
    if a != [] {
      assert (a + [sep] + b)[0] == a[0] != sep;
      assert (a + [sep] + b)[1..] == a[1..] + [sep] + b;
      assert sep !in a[1..];
      SplitFirstJoin(a[1..], sep, b);
      assert [a[0]] + a[1..] == a;
    }
  }

  lemma {:induction false} SplitFirstAbsent(s: string, sep: char)
    requires sep !in s
    ensures SplitFirst(s, sep) == (s, None)
  {
    if s != [] {
      SplitFirstAbsent(s[1..], sep);
    }
  }

  /** The pieces of `s` between occurrences of `sep`. */
  function Segments(s: string, sep: char): (r: seq<string>)
    ensures |r| >= 1
    decreases |s|
  {
    match SplitFirst(s, sep)
    case (before, None) => [before]
    case (before, Some(after)) => [before] + Segments(after, sep)
  }
}
