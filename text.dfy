/** The few pieces of Python string behaviour the core relies on:
    `str.lower`, `str.strip`, `str.join` and the `in` substring test. */
module Text {

  /** `str.lower()` on one character, for the ASCII letters. */
  function LowerChar(c: char): char
  {
    if 'A' <= c <= 'Z' then (c as int + 32) as char else c
  }

  /** `s.lower()`, character by character. */
  function Lower(s: string): (r: string)
    ensures |r| == |s|
    ensures forall i :: 0 <= i < |s| ==> r[i] == LowerChar(s[i])
  {
    if s == [] then [] else [LowerChar(s[0])] + Lower(s[1..])
  }

  lemma LowerIdempotent(s: string)
    ensures Lower(Lower(s)) == Lower(s)
  {
    assert forall i :: 0 <= i < |s| ==> LowerChar(LowerChar(s[i])) == LowerChar(s[i]);
  }

  /** Lower-casing works character by character, so it commutes with
      taking a suffix. */
  lemma LowerSuffix(a: string, b: string)
    ensures Lower(a + b)[|a|..] == Lower(b)
  {
    var l := Lower(a + b);
    forall k | 0 <= k < |b|
      ensures l[|a|..][k] == Lower(b)[k]
    {
      assert (a + b)[|a| + k] == b[k];
    }
  }

  /** The characters Python's `str.isspace()` accepts, which `str.strip()` removes. */
  predicate IsSpace(c: char)
  {
    || c == ' '
    || '\t' <= c <= '\r'
    || '\U{1c}' <= c <= '\U{1f}'
    || c == '\U{85}' || c == '\U{a0}' || c == '\U{1680}'
    || '\U{2000}' <= c <= '\U{200a}'
    || c == '\U{2028}' || c == '\U{2029}' || c == '\U{202f}' || c == '\U{205f}' || c == '\U{3000}'
  }

  /** How many white-space characters `s` starts with: the index of its
      first character that is not white space, or `|s|`. */
  function LeadingSpaces(s: string): (n: nat)
    ensures n <= |s|
    ensures forall k :: 0 <= k < n ==> IsSpace(s[k])
    ensures n < |s| ==> !IsSpace(s[n])
  {
    if s != [] && IsSpace(s[0]) then 1 + LeadingSpaces(s[1..]) else 0
  }

  /** Where the white space at the end of `s` begins: one past its last
      character that is not white space, or `0`. */
  function TrailingSpaceStart(s: string): (j: nat)
    ensures j <= |s|
    ensures forall k :: j <= k < |s| ==> IsSpace(s[k])
    ensures 0 < j ==> !IsSpace(s[j - 1])
  {
    if s != [] && IsSpace(s[|s| - 1]) then TrailingSpaceStart(s[..|s| - 1]) else |s|
  }

  /** `s.lstrip()`: `s` without its leading white space. */
  function TrimStart(s: string): (r: string)
    ensures r == [] || !IsSpace(r[0])
    ensures |r| <= |s| && r == s[|s| - |r|..]
    ensures forall k :: 0 <= k < |s| - |r| ==> IsSpace(s[k])
  {
    s[LeadingSpaces(s)..]
  }

  /** `s.rstrip()`: `s` without its trailing white space. */
  function TrimEnd(s: string): (r: string)
    ensures r == [] || !IsSpace(r[|r| - 1])
    ensures |r| <= |s| && r == s[..|r|]
    ensures forall k :: |r| <= k < |s| ==> IsSpace(s[k])
  {
    s[..TrailingSpaceStart(s)]
  }

  /** `s.strip()`: `s` with only its leading and trailing white space
      removed, so that the rest neither starts nor ends with white space. */
  function Strip(s: string): (r: string)
    ensures r == [] || (!IsSpace(r[0]) && !IsSpace(r[|r| - 1]))
    ensures exists i, j ::
              && 0 <= i <= j <= |s| && r == s[i..j]
              && (forall k :: 0 <= k < i ==> IsSpace(s[k]))
              && (forall k :: j <= k < |s| ==> IsSpace(s[k]))
  {
    var i := LeadingSpaces(s);
    var j := if TrailingSpaceStart(s) < i then i else TrailingSpaceStart(s);
    s[i..j]
  }

  /** Stripping both ends at once is stripping the start, then the end. */
  lemma StripIsTrimBoth(s: string)
    ensures Strip(s) == TrimEnd(TrimStart(s))
  {
    var i := LeadingSpaces(s);
    var t := TrimStart(s);
    assert t == s[i..];
    if i < |s| {
      assert TrailingSpaceStart(t) == TrailingSpaceStart(s) - i by {
        TrailingSpaceShift(s, i);
      }
    }
  }

  /** Dropping leading characters that are not all of `s` moves the start of
      its trailing white space back by as many. */
  lemma {:induction false} TrailingSpaceShift(s: string, i: nat)
    requires i <= LeadingSpaces(s) < |s|
    ensures TrailingSpaceStart(s[i..]) == TrailingSpaceStart(s) - i
  {
    if IsSpace(s[|s| - 1]) {
      assert s[..|s| - 1][i..] == s[i..][..|s[i..]| - 1];
      TrailingSpaceShift(s[..|s| - 1], i);
    }
  }

  /** `sep.join(parts)`. */
  function Join(sep: string, parts: seq<string>): string
  {
    if parts == [] then ""
    else if |parts| == 1 then parts[0]
    else parts[0] + sep + Join(sep, parts[1..])
  }

  predicate StartsWith(s: string, prefix: string)
  {
    |prefix| <= |s| && s[..|prefix|] == prefix
  }

  /** Python's `sub in s`. */
  predicate Contains(s: string, sub: string)
  {
    StartsWith(s, sub) || (s != [] && Contains(s[1..], sub))
  }

  /** An occurrence at a known position makes `sub in s` true. */
  lemma {:induction false} ContainsAt(s: string, sub: string, i: nat)
    requires i + |sub| <= |s| && s[i..i + |sub|] == sub
    ensures Contains(s, sub)
  {
    if i > 0 {
      assert s[1..][i - 1..i - 1 + |sub|] == sub;
      ContainsAt(s[1..], sub, i - 1);
    }
  }

  /** And `sub in s` means `sub` occurs at some position of `s`. */
  lemma {:induction false} ContainsWitness(s: string, sub: string) returns (i: nat)
    requires Contains(s, sub)
    ensures i + |sub| <= |s| && s[i..i + |sub|] == sub
  {
    if StartsWith(s, sub) {
      i := 0;
    } else {
      var j := ContainsWitness(s[1..], sub);
      assert s[1..][j..j + |sub|] == s[j + 1..j + 1 + |sub|];
      i := j + 1;
    }
  }

  /** Each part of a join occurs in it. */
  lemma {:induction false} JoinContainsPart(sep: string, parts: seq<string>, k: nat)
    requires k < |parts|
    ensures Contains(Join(sep, parts), parts[k])
  {
    var j := JoinPartAt(sep, parts, k);
    ContainsAt(Join(sep, parts), parts[k], j);
  }

  lemma {:induction false} JoinPartAt(sep: string, parts: seq<string>, k: nat) returns (j: nat)
    requires k < |parts|
    ensures j + |parts[k]| <= |Join(sep, parts)| && Join(sep, parts)[j..j + |parts[k]|] == parts[k]
  {
    if |parts| == 1 {
      j := 0;
    } else if k == 0 {
      j := 0;
      assert Join(sep, parts) == parts[0] + (sep + Join(sep, parts[1..]));
    } else {
      var rest := Join(sep, parts[1..]);
      var j' := JoinPartAt(sep, parts[1..], k - 1);
      assert Join(sep, parts) == (parts[0] + sep) + rest;
      j := |parts[0]| + |sep| + j';
      assert Join(sep, parts)[j..j + |parts[k]|] == rest[j'..j' + |parts[k]|];
    }
  }

  predicate IsDigit(c: char)
  {
    '0' <= c <= '9'
  }

  /** Python's `str(n)` for an integer: a minus sign exactly when `n` is
      negative, then decimal digits. */
  function DecimalString(n: int): (r: string)
    ensures r != [] && (r[0] == '-' <==> n < 0)
    ensures forall k :: (if n < 0 then 1 else 0) <= k < |r| ==> IsDigit(r[k])
  {
    if n < 0 then "-" + Digits(-n) else Digits(n)
  }

  /** The decimal digits of `n`, most significant first, with no leading zero. */
  function Digits(n: nat): (r: string)
    ensures r != [] && (r[0] == '0' ==> n == 0)
    ensures forall k :: 0 <= k < |r| ==> IsDigit(r[k])
    decreases n
  {
    if n < 10 then [DigitChar(n)] else Digits(n / 10) + [DigitChar(n % 10)]
  }

  function DigitChar(d: nat): (c: char)
    requires d < 10
    ensures IsDigit(c) && c as int - '0' as int == d
  {
    ('0' as int + d) as char
  }

  /** The number a string of decimal digits denotes. */
  function DigitsValue(s: string): int
    requires forall k :: 0 <= k < |s| ==> IsDigit(s[k])
  {
    if s == [] then 0 else 10 * DigitsValue(s[..|s| - 1]) + (s[|s| - 1] as int - '0' as int)
  }

  /** The integer a decimal rendering denotes: an optional minus sign, then digits. */
  function DecimalValue(s: string): int
    requires s != [] && forall k :: (if s[0] == '-' then 1 else 0) <= k < |s| ==> IsDigit(s[k])
  {
    if s[0] == '-' then -DigitsValue(s[1..]) else DigitsValue(s)
  }

  lemma {:induction false} DigitsRoundTrip(n: nat)
    ensures DigitsValue(Digits(n)) == n
  {
    if n >= 10 {
      DigitsRoundTrip(n / 10);
      var d := Digits(n);
      assert d[..|d| - 1] == Digits(n / 10);
    }
  }

  /** `str(n)` loses nothing: reading it back gives `n`, so different
      integers are rendered differently. */
  lemma DecimalRoundTrip(n: int)
    ensures DecimalValue(DecimalString(n)) == n
  {
    if n < 0 {
      assert DecimalString(n)[1..] == Digits(-n);
      DigitsRoundTrip(-n);
    } else {
      DigitsRoundTrip(n);
    }
  }
}
