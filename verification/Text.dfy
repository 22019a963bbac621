/** The string operations of the Kotlin standard library that the application
    relies on: `contains` (exact and ignoring case), `startsWith`, `trim`,
    `isBlank`, `replace` of one character, and decimal rendering of an `Int`. */
module Text {
  import opened Optional

  // ---------------------------------------------------------------------
  // Characters
  // ---------------------------------------------------------------------

  /** ASCII lower-casing. Kotlin's `Char.equals(other, ignoreCase = true)` and
      Java's `equalsIgnoreCase` also fold a few non-ASCII letters. Of the texts
      this application compares against (".m3u8", ".flv", "true", "false"),
      only "false" is affected: the long s 'ſ' folds to 's'. */
  function Lower(c: char): char {
    if 'A' <= c <= 'Z' then (c as int + 32) as char else c
  }

  predicate CharEq(a: char, b: char, ignoreCase: bool) {
    if ignoreCase then Lower(a) == Lower(b) else a == b
  }

  /** Kotlin's `Char.isWhitespace()`: Java's `Character.isWhitespace` together
      with `Character.isSpaceChar` (every Unicode space separator, including the
      no-break spaces). */
  predicate IsWhitespace(c: char) {
    || '\t' <= c <= '\r'
    || '\U{001C}' <= c <= ' '
    || c == '\U{00A0}' || c == '\U{1680}'
    || '\U{2000}' <= c <= '\U{200A}'
    || c == '\U{2028}' || c == '\U{2029}' || c == '\U{202F}'
    || c == '\U{205F}' || c == '\U{3000}'
  }

  // ---------------------------------------------------------------------
  // Substring search
  // ---------------------------------------------------------------------

  /** `needle` occurs in `s` starting at index `i`. */
  predicate MatchesAt(s: string, needle: string, i: int, ignoreCase: bool) {
    && 0 <= i
    && i + |needle| <= |s|
    && forall j :: 0 <= j < |needle| ==> CharEq(s[i + j], needle[j], ignoreCase)
  }

  /** The specification of `contains`: some position matches. */
  ghost predicate Occurs(s: string, needle: string, ignoreCase: bool) {
    exists i :: MatchesAt(s, needle, i, ignoreCase)
  }

  /** Kotlin's `s.contains(needle, ignoreCase)`. */
  function Contains(s: string, needle: string, ignoreCase: bool): (b: bool)
    ensures b <==> Occurs(s, needle, ignoreCase)
  {
    ContainsFrom(s, needle, ignoreCase, 0)
  }

  /** Left-to-right scan for a match at `from` or later. */
  function ContainsFrom(s: string, needle: string, ignoreCase: bool, from: nat): (b: bool)
    ensures b <==> exists i :: from <= i && MatchesAt(s, needle, i, ignoreCase)
    decreases |s| - from
  {
    if from + |needle| > |s| then false
    else MatchesAt(s, needle, from, ignoreCase) || ContainsFrom(s, needle, ignoreCase, from + 1)
  }

  /** Kotlin's `s.startsWith(prefix)`. */
  predicate StartsWith(s: string, prefix: string) {
    |prefix| <= |s| && s[..|prefix|] == prefix
  }

  /** Two strings that differ at most in the case of their letters (Java's `equalsIgnoreCase`). */
  predicate SameIgnoringCase(s: string, t: string) {
    |s| == |t| && forall i :: 0 <= i < |s| ==> Lower(s[i]) == Lower(t[i])
  }

  /** A case-insensitive search cannot tell apart strings that differ only in case. */
  lemma ContainsIgnoringCaseIsCaseBlind(s: string, t: string, needle: string)
    requires SameIgnoringCase(s, t)
    ensures Contains(s, needle, true) == Contains(t, needle, true)
  {
    forall i | MatchesAt(s, needle, i, true) ensures MatchesAt(t, needle, i, true) {
      forall j | 0 <= j < |needle| ensures Lower(t[i + j]) == Lower(needle[j]) {
        assert Lower(s[i + j]) == Lower(t[i + j]);
      }
    }
    forall i | MatchesAt(t, needle, i, true) ensures MatchesAt(s, needle, i, true) {
      forall j | 0 <= j < |needle| ensures Lower(s[i + j]) == Lower(needle[j]) {
        assert Lower(s[i + j]) == Lower(t[i + j]);
      }
    }
  }

  /** A needle placed anywhere inside a string is found: containment, not a suffix test. */
  lemma ContainsInfix(p: string, needle: string, q: string, ignoreCase: bool)
    ensures Contains(p + needle + q, needle, ignoreCase)
  {
    var s := p + needle + q;
    forall j | 0 <= j < |needle| ensures CharEq(s[|p| + j], needle[j], ignoreCase) {
      assert s[|p| + j] == needle[j];
    }
    assert MatchesAt(s, needle, |p|, ignoreCase);
  }

  // ---------------------------------------------------------------------
  // Whitespace: isBlank and trim
  // ---------------------------------------------------------------------

  /** Kotlin's `isBlank()`: empty, or whitespace only. */
  predicate IsBlank(s: string) {
    forall i :: 0 <= i < |s| ==> IsWhitespace(s[i])
  }

  /** Kotlin's `isNullOrBlank()`. */
  predicate IsNullOrBlank(s: Option<string>) {
    s.None? || IsBlank(s.value)
  }

  /** Drops leading whitespace; the result is the suffix starting at the first
      non-whitespace character. */
  function TrimStart(s: string): (r: string)
    ensures |r| <= |s| && r == s[|s| - |r|..]
    ensures IsBlank(s[..|s| - |r|])
    ensures r == [] || !IsWhitespace(r[0])
    decreases |s|
  {
    if |s| > 0 && IsWhitespace(s[0]) then
      var r := TrimStart(s[1..]);
      assert s[..|s| - |r|] == [s[0]] + s[1..][..|s| - 1 - |r|];
      r
    else s
  }

  /** Drops trailing whitespace; the result is the prefix ending at the last
      non-whitespace character. */
  function TrimEnd(s: string): (r: string)
    ensures |r| <= |s| && r == s[..|r|]
    ensures IsBlank(s[|r|..])
    ensures r == [] || !IsWhitespace(r[|r| - 1])
    decreases |s|
  {
    if |s| > 0 && IsWhitespace(s[|s| - 1]) then
      var r := TrimEnd(s[..|s| - 1]);
      assert s[|r|..] == s[..|s| - 1][|r|..] + [s[|s| - 1]];
      r
    else s
  }

  /** `r` is `s` with whitespace padding of `i` characters in front and the rest behind. */
  ghost predicate PaddedAt(s: string, r: string, i: int) {
    && 0 <= i
    && i + |r| <= |s|
    && s[i..i + |r|] == r
    && IsBlank(s[..i])
    && IsBlank(s[i + |r|..])
  }

  /** Kotlin's `trim()`: `s` is whitespace, then the result, then whitespace,
      and the result neither starts nor ends with whitespace. */
  function Trim(s: string): (r: string)
    ensures r == [] || (!IsWhitespace(r[0]) && !IsWhitespace(r[|r| - 1]))
    ensures exists i :: PaddedAt(s, r, i)
  {
    var t := TrimStart(s);
    var r := TrimEnd(t);
    var i := |s| - |t|;
    assert s[i..i + |r|] == r;
    assert s[i + |r|..] == t[|r|..];
    assert PaddedAt(s, r, i);
    r
  }

  /** Every character of a trimmed string comes from the original. */
  lemma TrimKeepsCharacters(s: string, c: char)
    ensures c in Trim(s) ==> c in s
  {
    var r := Trim(s);
    if c !in r { return; }
    var i :| PaddedAt(s, r, i);
    var k :| 0 <= k < |r| && r[k] == c;
    assert s[i + k] == c;
  }

  /** Trimming is idempotent. */
  lemma TrimIdempotent(s: string)
    ensures Trim(Trim(s)) == Trim(s)
  {
    var r := Trim(s);
    if r != [] {
      assert TrimStart(r) == r;
      assert TrimEnd(r) == r;
    }
  }

  // ---------------------------------------------------------------------
  // replace(c, "")
  // ---------------------------------------------------------------------

  /** Kotlin's `s.replace("c", "")` for a one-character pattern: every
      occurrence of `c` is dropped and the rest keeps its order. */
  function RemoveChar(s: string, c: char): (r: string)
    ensures c !in r
    ensures forall x :: x in r <==> x in s && x != c
    ensures forall x :: x != c ==> multiset(r)[x] == multiset(s)[x]
    ensures |r| == |s| - multiset(s)[c]
  {
    if |s| == 0 then []
    else
      assert s == [s[0]] + s[1..];
      assert multiset(s) == multiset{s[0]} + multiset(s[1..]);
      if s[0] == c then RemoveChar(s[1..], c)
      else [s[0]] + RemoveChar(s[1..], c)
  }

  /** Removal works character by character, so the kept characters stay in order. */
  lemma {:induction false} RemoveCharDistributes(a: string, b: string, c: char)
    ensures RemoveChar(a + b, c) == RemoveChar(a, c) + RemoveChar(b, c)
  {
    if |a| > 0 {
      assert (a + b)[0] == a[0];
      assert (a + b)[1..] == a[1..] + b;
      RemoveCharDistributes(a[1..], b, c);
    } else {
      assert a + b == b;
    }
  }

  /** A string without the character is left exactly as it is. */
  lemma {:induction false} RemoveAbsentChar(s: string, c: char)
    ensures c !in s ==> RemoveChar(s, c) == s
  {
    if |s| > 0 && c !in s {
      assert c !in s[1..];
      RemoveAbsentChar(s[1..], c);
      assert s == [s[0]] + s[1..];
    }
  }

  // ---------------------------------------------------------------------
  // Decimal rendering of integers
  // ---------------------------------------------------------------------

  predicate IsDigit(c: char) {
    '0' <= c <= '9'
  }

  predicate AllDigits(s: string) {
    forall i :: 0 <= i < |s| ==> IsDigit(s[i])
  }

  function DigitChar(d: nat): (c: char)
    requires d < 10
    ensures IsDigit(c)
  {
    ('0' as int + d) as char
  }

  /** The value of a string of decimal digits (the empty string is 0). */
  function DecimalValue(s: string): nat
    requires AllDigits(s)
  {
    if |s| == 0 then 0
    else 10 * DecimalValue(s[..|s| - 1]) + (s[|s| - 1] as int - '0' as int)
  }

  /** `n.toString()` for a non-negative `n`: no leading zero except for 0 itself. */
  function NatToString(n: nat): (s: string)
    ensures |s| > 0 && AllDigits(s)
    ensures s[0] == '0' ==> n == 0
  {
    if n < 10 then [DigitChar(n)]
    else NatToString(n / 10) + [DigitChar(n % 10)]
  }

  /** Java's `String.valueOf(int)` / Kotlin's `Int.toString()`. */
  function IntToString(n: int): (s: string)
    ensures |s| > 0
    ensures forall i :: 0 <= i < |s| ==> s[i] == '-' || IsDigit(s[i])
  {
    if n < 0 then "-" + NatToString(-n) else NatToString(n)
  }

  /** Reads back an optionally signed decimal. */
  function ParseInt(s: string): Option<int> {
    if |s| > 1 && s[0] == '-' && AllDigits(s[1..]) then Some(-(DecimalValue(s[1..]) as int))
    else if |s| > 0 && AllDigits(s) then Some(DecimalValue(s))
    else None
  }

  lemma {:induction false} NatToStringRoundTrip(n: nat)
    ensures DecimalValue(NatToString(n)) == n
  {
    if n >= 10 {
      NatToStringRoundTrip(n / 10);
      var s := NatToString(n);
      assert s[..|s| - 1] == NatToString(n / 10);
    }
  }

  /** Rendering then reading back an integer gives the integer. */
  lemma IntToStringRoundTrip(n: int)
    ensures ParseInt(IntToString(n)) == Some(n)
  {
    if n < 0 {
      NatToStringRoundTrip(-n);
      assert IntToString(n)[1..] == NatToString(-n);
    } else {
      NatToStringRoundTrip(n);
    }
  }

  /** Different integers render differently. */
  lemma IntToStringInjective(a: int, b: int)
    requires IntToString(a) == IntToString(b)
    ensures a == b
  {
    IntToStringRoundTrip(a);
    IntToStringRoundTrip(b);
  }
}
