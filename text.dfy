/** String operations of the Java library that the query factory relies on:
    literal replacement (String.replace), the repository's StringUtils.join,
    String.valueOf(int) and 32-bit int arithmetic. */
module Text {

  /** `pat` occurs in `s` starting at offset `i`. */
  predicate MatchAt(s: string, pat: string, i: nat) {
    i + |pat| <= |s| && s[i..i + |pat|] == pat
  }

  /** Java's String.replace(target, replacement) for a non-empty target:
      occurrences are found left to right, do not overlap, and the inserted
      replacement text is not scanned again. */
  function ReplaceAll(s: string, pat: string, rep: string): string
    requires pat != []
    decreases |s|
  {
    if |s| < |pat| then s
    else if s[..|pat|] == pat then rep + ReplaceAll(s[|pat|..], pat, rep)
    else [s[0]] + ReplaceAll(s[1..], pat, rep)
  }

  /** Dropping the first character of a prefix free of occurrences leaves
      a prefix free of occurrences. */
  lemma NoMatchTail(a: string, b: string, pat: string)
    requires a != []
    requires forall i: nat :: i < |a| ==> !MatchAt(a + b, pat, i)
    ensures forall i: nat :: i < |a[1..]| ==> !MatchAt(a[1..] + b, pat, i)
  {
    var s := a + b;
    forall i: nat | i < |a[1..]|
      ensures !MatchAt(a[1..] + b, pat, i)
    {
      assert !MatchAt(s, pat, i + 1);
      if i + |pat| <= |a[1..] + b| {
        assert (a[1..] + b)[i..i + |pat|] == s[i + 1..i + 1 + |pat|];
      }
    }
  }

  /** A prefix in which no occurrence starts is copied unchanged. */
  lemma {:induction false} ReplaceAllSkip(a: string, b: string, pat: string, rep: string)
    requires pat != []
    requires forall i: nat :: i < |a| ==> !MatchAt(a + b, pat, i)
    ensures ReplaceAll(a + b, pat, rep) == a + ReplaceAll(b, pat, rep)
    decreases |a|
  {
    if a == [] {
      assert a + b == b;
    } else {
      var s := a + b;
      if |s| < |pat| {
        assert |b| < |pat|;
      } else {
        assert !MatchAt(s, pat, 0);
        assert s[..|pat|] != pat;
        assert s[1..] == a[1..] + b;
        NoMatchTail(a, b, pat);
        ReplaceAllSkip(a[1..], b, pat, rep);
        assert [s[0]] + (a[1..] + ReplaceAll(b, pat, rep)) == a + ReplaceAll(b, pat, rep);
      }
    }
  }

  /** An occurrence at the front is replaced and scanning resumes after it. */
  lemma ReplaceAllAtMatch(b: string, pat: string, rep: string)
    requires pat != []
    ensures ReplaceAll(pat + b, pat, rep) == rep + ReplaceAll(b, pat, rep)
  {
    assert (pat + b)[..|pat|] == pat;
    assert (pat + b)[|pat|..] == b;
  }

  /** Text in which the target does not occur is returned unchanged. */
  lemma ReplaceAllAbsent(s: string, pat: string, rep: string)
    requires pat != []
    requires forall i: nat :: i < |s| ==> !MatchAt(s, pat, i)
    ensures ReplaceAll(s, pat, rep) == s
  {
    assert s + [] == s;
    ReplaceAllSkip(s, [], pat, rep);
  }

  /** Replacing the target by itself gives back the text. */
  lemma {:induction false} ReplaceAllSelf(s: string, pat: string)
    requires pat != []
    ensures ReplaceAll(s, pat, pat) == s
    decreases |s|
  {
    if |s| >= |pat| {
      if s[..|pat|] == pat {
        ReplaceAllSelf(s[|pat|..], pat);
        assert pat + s[|pat|..] == s;
      } else {
        ReplaceAllSelf(s[1..], pat);
        assert [s[0]] + s[1..] == s;
      }
    }
  }

  lemma Assoc(x: string, y: string, z: string)
    ensures (x + y) + z == x + (y + z)
  {
  }

  /** The repository's StringUtils.join(items, separator, itemPrefix, start, end),
      read from its call sites: `start`, then every item preceded by
      `itemPrefix`, separated by `separator`, then `end`. */
  function Join(items: seq<string>, sep: string, prefix: string, start: string, end: string): string {
    start + Interleave(items, sep, prefix) + end
  }

  function Interleave(items: seq<string>, sep: string, prefix: string): string
    decreases |items|
  {
    if |items| == 0 then ""
    else if |items| == 1 then prefix + items[0]
    else prefix + items[0] + sep + Interleave(items[1..], sep, prefix)
  }

  // 32-bit Java int arithmetic

  const INT_MIN: int := -0x8000_0000
  const INT_MAX: int := 0x7fff_ffff

  predicate IsInt32(x: int) {
    INT_MIN <= x <= INT_MAX
  }

  /** Two's-complement wrap-around of an exact result into a Java int. */
  function WrapInt32(x: int): (r: int)
    ensures IsInt32(r)
    ensures (r - x) % 0x1_0000_0000 == 0
    ensures IsInt32(x) ==> r == x
  {
    (x + 0x8000_0000) % 0x1_0000_0000 - 0x8000_0000
  }

  /** Java's int multiplication: the exact product wrapped into 32 bits. */
  function MulInt32(a: int, b: int): (r: int)
    requires IsInt32(a) && IsInt32(b)
    ensures IsInt32(r)
    ensures IsInt32(a * b) ==> r == a * b
    ensures (r - a * b) % 0x1_0000_0000 == 0
  {
    WrapInt32(a * b)
  }

  // String.valueOf(int)

  predicate IsDigit(c: char) {
    '0' <= c <= '9'
  }

  function DigitChar(d: nat): (c: char)
    requires d < 10
    ensures IsDigit(c)
  {
    (('0' as int) + d) as char
  }

  function DigitsOf(n: nat): (s: string)
    ensures s != []
    ensures forall c :: c in s ==> IsDigit(c)
  {
    if n < 10 then [DigitChar(n)] else DigitsOf(n / 10) + [DigitChar(n % 10)]
  }

  /** String.valueOf(int): the decimal digits, after a minus sign when negative. */
  function DecimalString(i: int): (s: string)
    ensures s != []
    ensures forall c :: c in s ==> c == '-' || IsDigit(c)
  {
    if i < 0 then "-" + DigitsOf(-i) else DigitsOf(i)
  }

  function ParseDigits(s: string): int
    requires forall c :: c in s ==> IsDigit(c)
    decreases |s|
  {
    if s == [] then 0
    else ParseDigits(s[..|s| - 1]) * 10 + ((s[|s| - 1] as int) - ('0' as int))
  }

  /** Reads a decimal integer written by DecimalString. */
  function ParseDecimal(s: string): int
    requires s != []
    requires forall c :: c in s ==> c == '-' || IsDigit(c)
    requires forall c :: c in s[1..] ==> IsDigit(c)
  {
    if s[0] == '-' then -ParseDigits(s[1..]) else ParseDigits(s)
  }

  lemma {:induction false} DigitsRoundTrip(n: nat)
    ensures ParseDigits(DigitsOf(n)) == n
  {
    if n >= 10 {
      var s := DigitsOf(n);
      assert s[..|s| - 1] == DigitsOf(n / 10);
      DigitsRoundTrip(n / 10);
    }
  }

  /** The text a limit placeholder receives denotes exactly the limit. */
  lemma DecimalRoundTrip(i: int)
    ensures var s := DecimalString(i);
      (forall c :: c in s[1..] ==> IsDigit(c)) && ParseDecimal(s) == i
  {
    var s := DecimalString(i);
    if i < 0 {
      assert s[1..] == DigitsOf(-i);
      DigitsRoundTrip(-i);
    } else {
      var d := DigitsOf(i);
      assert forall c :: c in d[1..] ==> c in d;
      assert d[0] in d;
      DigitsRoundTrip(i);
    }
  }
}
