/** Java's String.replaceAll(regex, replacement) for the patterns the query
    factory passes it. Every pattern there is a regular expression that
    matches one fixed text (`\\[\\[QUERY\\]\\]`, `\\\\`, `'`), so matching is
    the literal left-to-right search of Text.ReplaceAll. What differs from
    String.replace is the replacement string: Matcher.appendReplacement reads
    `\x` as the character x and `$g` as a reference to capture group g. */
module JavaRegex {
  import opened Wrappers
  import opened Text

  /** The exceptions appendReplacement throws: IllegalArgumentException for
      a malformed replacement, IndexOutOfBoundsException for a reference to
      a group the pattern does not have. */
  datatype ReplaceError = IllegalArgument | NoSuchGroup(group: nat)

  /** A replacement string that appendReplacement copies unchanged. */
  predicate Plain(rep: string) {
    '\\' !in rep && '$' !in rep
  }

  /** Skips the extra digits appendReplacement absorbs into a reference to
      group 0 when the pattern has no groups: it keeps reading digits only
      while the number stays a valid group index, i.e. while it stays 0. */
  function SkipZeros(rep: string): (r: string)
    ensures |r| <= |rep| && rep[|rep| - |r|..] == r
    ensures r == [] || r[0] != '0'
    decreases |rep|
  {
    if rep != [] && rep[0] == '0' then SkipZeros(rep[1..]) else rep
  }

  /** The text appendReplacement appends for one match of a pattern with no
      capture groups; `matched` is the matched text (group 0). */
  function Expand(rep: string, matched: string): (r: Result<string, ReplaceError>)
    decreases |rep|
  {
    if rep == [] then Ok([])
    else if rep[0] == '\\' then
      if |rep| == 1 then Err(IllegalArgument)
      else Prepend([rep[1]], Expand(rep[2..], matched))
    else if rep[0] == '$' then
      if |rep| == 1 then Err(IllegalArgument)
      else if !IsDigit(rep[1]) then Err(IllegalArgument)
      else if rep[1] != '0' then Err(NoSuchGroup((rep[1] as int) - ('0' as int)))
      else Prepend(matched, Expand(SkipZeros(rep[2..]), matched))
    else Prepend([rep[0]], Expand(rep[1..], matched))
  }

  lemma ExpandEscapeStep(c: char, rest: string, matched: string)
    ensures Expand(['\\', c] + rest, matched) == Prepend([c], Expand(rest, matched))
  {
    assert (['\\', c] + rest)[2..] == rest;
  }

  lemma ExpandCopyStep(c: char, rest: string, matched: string)
    requires c != '\\' && c != '$'
    ensures Expand([c] + rest, matched) == Prepend([c], Expand(rest, matched))
  {
    assert ([c] + rest)[1..] == rest;
  }

  function Prepend(w: string, r: Result<string, ReplaceError>): Result<string, ReplaceError> {
    match r
    case Ok(t) => Ok(w + t)
    case Err(e) => Err(e)
  }

  predicate Occurs(s: string, pat: string) {
    exists i: nat :: i < |s| && MatchAt(s, pat, i)
  }

  /** String.replaceAll with a pattern matching exactly `pat`. The
      replacement is expanded only when a match is found, so a malformed
      replacement goes unnoticed in text without a match. */
  function JavaReplaceAll(s: string, pat: string, rep: string): (r: Result<string, ReplaceError>)
    requires pat != []
  {
    if !Occurs(s, pat) then Ok(s)
    else match Expand(rep, pat)
      case Ok(e) => Ok(ReplaceAll(s, pat, e))
      case Err(err) => Err(err)
  }

  /** A replacement without `\` or `$` is inserted as written. */
  lemma {:induction false} ExpandPlain(rep: string, matched: string)
    requires Plain(rep)
    ensures Expand(rep, matched) == Ok(rep)
    decreases |rep|
  {
    if rep != [] {
      assert Plain(rep[1..]) by {
        assert forall c :: c in rep[1..] ==> c in rep;
      }
      assert rep[0] in rep;
      ExpandPlain(rep[1..], matched);
      assert [rep[0]] + rep[1..] == rep;
    }
  }

  /** A replacement that expands without error acts as String.replace with
      its expansion, whether or not the pattern occurs. */
  lemma JavaReplaceAllExpanded(s: string, pat: string, rep: string, e: string)
    requires pat != [] && Expand(rep, pat) == Ok(e)
    ensures JavaReplaceAll(s, pat, rep) == Ok(ReplaceAll(s, pat, e))
  {
    if !Occurs(s, pat) {
      ReplaceAllAbsent(s, pat, e);
    }
  }

  /** With a plain replacement, replaceAll is String.replace. */
  lemma JavaReplaceAllPlain(s: string, pat: string, rep: string)
    requires pat != [] && Plain(rep)
    ensures JavaReplaceAll(s, pat, rep) == Ok(ReplaceAll(s, pat, rep))
  {
    ExpandPlain(rep, pat);
    JavaReplaceAllExpanded(s, pat, rep, rep);
  }

  /** `$0` is group 0, the matched text itself: every occurrence is replaced
      by itself and the text comes back unchanged, without an exception. */
  lemma JavaReplaceAllGroupZero(s: string, pat: string)
    requires pat != []
    ensures JavaReplaceAll(s, pat, "$0") == Ok(s)
  {
    var z := "$0";
    assert z[0] == '$' && z[1] == '0' && |z| == 2 && IsDigit(z[1]);
    assert SkipZeros(z[2..]) == [];
    assert Expand(z, pat) == Prepend(pat, Ok([]));
    assert pat + [] == pat;
    ReplaceAllSelf(s, pat);
    JavaReplaceAllExpanded(s, pat, "$0", pat);
  }

  /** Matcher.quoteReplacement: a backslash before every `\` and `$`. */
  function QuoteReplacement(w: string): (r: string)
    decreases |w|
  {
    if w == [] then []
    else (if w[0] == '\\' || w[0] == '$' then ['\\', w[0]] else [w[0]]) + QuoteReplacement(w[1..])
  }

  /** Expansion undoes quoteReplacement: any text can be inserted literally
      through a quoted replacement. */
  lemma {:induction false} ExpandQuoted(w: string, matched: string)
    ensures Expand(QuoteReplacement(w), matched) == Ok(w)
    decreases |w|
  {
    if w != [] {
      ExpandQuoted(w[1..], matched);
      var q := QuoteReplacement(w);
      if w[0] == '\\' || w[0] == '$' {
        assert q[2..] == QuoteReplacement(w[1..]);
      } else {
        assert q[1..] == QuoteReplacement(w[1..]);
      }
      assert [w[0]] + w[1..] == w;
    }
  }
}
