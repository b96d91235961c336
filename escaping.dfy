/** Escaping of the user's search text before it is placed inside the
    single-quoted `text:query` phrase of a query (escapeQuery). Two stages:
    Lucene's QueryParser.escape protects the full-text query syntax, then a
    string-literal stage makes the result a well-formed SPARQL
    STRING_LITERAL1 body. */
module Escaping {
  import opened Wrappers
  import opened Text
  import opened Templates
  import opened JavaRegex

  // Stage 1: Lucene query syntax

  /** The characters Lucene's QueryParser.escape puts a backslash before. */
  predicate IsLuceneSpecial(c: char) {
    c == '\\' || c == '+' || c == '-' || c == '!' || c == '(' || c == ')' || c == ':'
    || c == '^' || c == '[' || c == ']' || c == '"' || c == '{' || c == '}' || c == '~'
    || c == '*' || c == '?' || c == '|' || c == '&' || c == '/'
  }

  function LuceneEscapeChar(c: char): string {
    if IsLuceneSpecial(c) then ['\\', c] else [c]
  }

  /** QueryParser.escape (Lucene's documented behaviour; the library is not
      part of this repository). */
  function LuceneEscape(q: string): string
    decreases |q|
  {
    if q == [] then [] else LuceneEscapeChar(q[0]) + LuceneEscape(q[1..])
  }

  /** Removal of Lucene's backslash escapes: a backslash takes the next
      character literally, and an unescaped special character of
      QueryParser.escape's set gives None. Whitespace and the words AND, OR
      and NOT are ordinary characters here, although Lucene's parser still
      reads them as clause separators and operators (LuceneEscapeKeeps). */
  function LuceneTerm(r: string): Option<string>
    decreases |r|
  {
    if r == [] then Some([])
    else if r[0] == '\\' then
      if |r| == 1 then None
      else match LuceneTerm(r[2..])
        case Some(t) => Some([r[1]] + t)
        case None => None
    else if IsLuceneSpecial(r[0]) then None
    else match LuceneTerm(r[1..])
      case Some(t) => Some([r[0]] + t)
      case None => None
  }

  /** Text without a special character, whitespace and the words AND, OR
      and NOT included, is left as it is: QueryParser.escape does not stop
      Lucene from splitting it into several clauses. */
  lemma {:induction false} LuceneEscapeKeeps(q: string)
    requires forall i :: 0 <= i < |q| ==> !IsLuceneSpecial(q[i])
    ensures LuceneEscape(q) == q
    decreases |q|
  {
    if q != [] {
      LuceneEscapeKeeps(q[1..]);
      assert [q[0]] + q[1..] == q;
    }
  }

  /** Removing the backslash escapes gives back the user's text, character
      for character, and no special character is left unescaped. */
  lemma {:induction false} LuceneRoundTrip(q: string)
    ensures LuceneTerm(LuceneEscape(q)) == Some(q)
    decreases |q|
  {
    if q != [] {
      LuceneRoundTrip(q[1..]);
      var e := LuceneEscape(q);
      assert e == LuceneEscapeChar(q[0]) + LuceneEscape(q[1..]);
      if IsLuceneSpecial(q[0]) {
        assert e[2..] == LuceneEscape(q[1..]);
      } else {
        assert e[1..] == LuceneEscape(q[1..]);
      }
      assert [q[0]] + q[1..] == q;
    }
  }

  lemma {:induction false} LuceneEscapeAppend(a: string, b: string)
    ensures LuceneEscape(a + b) == LuceneEscape(a) + LuceneEscape(b)
    decreases |a|
  {
    if a == [] {
      assert a + b == b;
    } else {
      assert (a + b)[1..] == a[1..] + b;
      LuceneEscapeAppend(a[1..], b);
    }
  }

  // Stage 2: SPARQL string literal

  function QuoteChar(c: char): string {
    if c == '\\' then "\\\\" else if c == '\'' then "\\'" else [c]
  }

  /** The string-literal stage as a per-character map: `\` becomes `\\`,
      `'` becomes `\'`, everything else is kept. */
  function QuoteChars(s: string): string
    decreases |s|
  {
    if s == [] then [] else QuoteChar(s[0]) + QuoteChars(s[1..])
  }

  lemma {:induction false} QuoteCharsAppend(a: string, b: string)
    ensures QuoteChars(a + b) == QuoteChars(a) + QuoteChars(b)
    decreases |a|
  {
    if a == [] {
      assert a + b == b;
    } else {
      assert (a + b)[1..] == a[1..] + b;
      QuoteCharsAppend(a[1..], b);
    }
  }

  /** Every occurrence of `c` replaced by `rep`. */
  function Subst(s: string, c: char, rep: string): string
    decreases |s|
  {
    if s == [] then [] else (if s[0] == c then rep else [s[0]]) + Subst(s[1..], c, rep)
  }

  lemma {:induction false} SubstAppend(a: string, b: string, c: char, rep: string)
    ensures Subst(a + b, c, rep) == Subst(a, c, rep) + Subst(b, c, rep)
    decreases |a|
  {
    if a == [] {
      assert a + b == b;
    } else {
      assert (a + b)[1..] == a[1..] + b;
      SubstAppend(a[1..], b, c, rep);
    }
  }

  /** Replacing a one-character target is a per-character substitution. */
  lemma {:induction false} ReplaceOneChar(s: string, c: char, rep: string)
    ensures ReplaceAll(s, [c], rep) == Subst(s, c, rep)
    decreases |s|
  {
    if s != [] {
      ReplaceOneChar(s[1..], c, rep);
      assert s[..1] == [s[0]];
    }
  }

  /** The two replace passes of the string-literal stage compose into the
      per-character map. */
  lemma {:induction false} TwoPassesQuote(s: string)
    ensures Subst(Subst(s, '\\', "\\\\"), '\'', "\\'") == QuoteChars(s)
    decreases |s|
  {
    if s != [] {
      var head := if s[0] == '\\' then "\\\\" else [s[0]];
      assert Subst(s, '\\', "\\\\") == head + Subst(s[1..], '\\', "\\\\");
      SubstAppend(head, Subst(s[1..], '\\', "\\\\"), '\'', "\\'");
      TwoPassesQuote(s[1..]);
      if s[0] == '\\' {
        assert Subst(head, '\'', "\\'") == "\\\\" by {
          assert head[1..] == "\\";
          assert Subst(head[1..], '\'', "\\'") == "\\" by {
            assert head[1..][1..] == [];
          }
        }
      } else {
        assert Subst(head, '\'', "\\'") == QuoteChar(s[0]) by {
          assert head[1..] == [];
        }
      }
    }
  }

  /** The regular expression `\\` of the source matches one backslash; its
      replacement `\\\\` expands to two. */
  const BackslashPattern: string := "\\"
  const EscapeBackslashReplacement: string := "\\\\\\\\"
  /** The pattern `'` and its replacement `\\'`, which expands to `\'`. */
  const QuotePattern: string := "'"
  const EscapeQuoteReplacement: string := "\\\\'"

  lemma ReplacementsExpand()
    ensures Expand(EscapeBackslashReplacement, BackslashPattern) == Ok("\\\\")
    ensures Expand(EscapeQuoteReplacement, QuotePattern) == Ok("\\'")
  {
    var bs: string := ['\\'];
    ExpandEscapeStep('\\', [], BackslashPattern);
    assert ['\\', '\\'] + [] == bs + bs;
    assert Expand([], BackslashPattern) == Ok([]);
    assert bs + [] == bs;
    assert Expand(bs + bs, BackslashPattern) == Ok(bs);
    ExpandEscapeStep('\\', bs + bs, BackslashPattern);
    assert EscapeBackslashReplacement == bs + bs + (bs + bs);
    assert Expand(EscapeBackslashReplacement, BackslashPattern) == Ok(bs + bs);
    var qt: string := ['\''];
    ExpandCopyStep('\'', [], QuotePattern);
    assert qt + [] == qt;
    assert Expand(qt, QuotePattern) == Ok(qt);
    ExpandEscapeStep('\\', qt, QuotePattern);
    assert EscapeQuoteReplacement == bs + bs + qt;
    assert Expand(EscapeQuoteReplacement, QuotePattern) == Ok(bs + qt);
    assert bs + bs == "\\\\" && bs + qt == "\\'";
  }

  /** escapeQuery: QueryParser.escape, then the two replaceAll passes of the
      string-literal stage, with Java's replacement-string expansion. */
  function EscapeQuery(q: string): (r: string)
    ensures r == QuoteChars(LuceneEscape(q))
  {
    var s := LuceneEscape(q);
    ReplacementsExpand();
    var doubled := JavaReplaceAll(s, BackslashPattern, EscapeBackslashReplacement);
    JavaReplaceAllExpanded(s, BackslashPattern, EscapeBackslashReplacement, "\\\\");
    var quoted := JavaReplaceAll(doubled.value, QuotePattern, EscapeQuoteReplacement);
    JavaReplaceAllExpanded(doubled.value, QuotePattern, EscapeQuoteReplacement, "\\'");
    ReplaceOneChar(s, '\\', "\\\\");
    ReplaceOneChar(doubled.value, '\'', "\\'");
    TwoPassesQuote(s);
    quoted.value
  }

  /** Lucene's escaping adds nothing but backslashes. */
  lemma {:induction false} LuceneEscapeAddsBackslashes(q: string)
    ensures forall c :: c in LuceneEscape(q) ==> c in q || c == '\\'
    decreases |q|
  {
    if q != [] {
      LuceneEscapeAddsBackslashes(q[1..]);
      assert forall c :: c in q[1..] ==> c in q;
    }
  }

  // Reading the result back as SPARQL

  /** The value of an escape sequence (ECHAR) in a SPARQL string literal. */
  function EscapedValue(c: char): Option<char> {
    if c == 't' then Some('\t')
    else if c == 'b' then Some('\U{0008}')
    else if c == 'n' then Some('\n')
    else if c == 'r' then Some('\r')
    else if c == 'f' then Some('\U{000C}')
    else if c == '"' || c == '\'' || c == '\\' then Some(c)
    else None
  }

  function PrependValue(w: string, r: Option<(string, string)>): Option<(string, string)> {
    match r
    case Some((v, rest)) => Some((w + v, rest))
    case None => None
  }

  /** Reads the body of a single-quoted SPARQL string literal
      (STRING_LITERAL1 of the SPARQL 1.1 grammar), just after its opening
      quote: the literal's value and the text after its closing quote, or
      None when the text is not a well-formed literal. A raw `'`, `\`, line
      feed or carriage return cannot appear inside. */
  function ReadLiteralBody(r: string): Option<(string, string)>
    decreases |r|
  {
    if r == [] then None
    else if r[0] == '\'' then Some(([], r[1..]))
    else if r[0] == '\n' || r[0] == '\r' then None
    else if r[0] == '\\' then
      if |r| == 1 then None
      else match EscapedValue(r[1])
        case None => None
        case Some(c) => PrependValue([c], ReadLiteralBody(r[2..]))
    else PrependValue([r[0]], ReadLiteralBody(r[1..]))
  }

  lemma ReadQuotedChar(c: char, tail: string)
    requires c != '\n' && c != '\r'
    ensures ReadLiteralBody(QuoteChar(c) + tail) == PrependValue([c], ReadLiteralBody(tail))
  {
    if c == '\\' || c == '\'' {
      assert (QuoteChar(c) + tail)[2..] == tail;
    } else {
      assert (QuoteChar(c) + tail)[1..] == tail;
    }
  }

  lemma PrependValueTwice(a: string, b: string, r: Option<(string, string)>)
    ensures PrependValue(a, PrependValue(b, r)) == PrependValue(a + b, r)
  {
    match r
    case Some((v, rest)) => assert a + (b + v) == (a + b) + v;
    case None =>
  }

  /** Quoted text is read back as itself, and the literal goes on past it:
      nothing in it can close the literal early. */
  lemma {:induction false} ReadQuoted(s: string, rest: string)
    requires '\n' !in s && '\r' !in s
    ensures ReadLiteralBody(QuoteChars(s) + rest) == PrependValue(s, ReadLiteralBody(rest))
    decreases |s|
  {
    if s == [] {
      assert QuoteChars(s) + rest == rest;
      match ReadLiteralBody(rest)
      case Some((v, r)) => assert s + v == v;
      case None =>
    } else {
      var c, t := s[0], s[1..];
      assert s == [c] + t;
      ReadQuoted(t, rest);
      QuoteCharsCons(s, rest);
      ReadQuotedChar(c, QuoteChars(t) + rest);
      PrependValueTwice([c], t, ReadLiteralBody(rest));
    }
  }

  lemma QuoteCharsCons(s: string, rest: string)
    requires s != []
    ensures QuoteChars(s) + rest == QuoteChar(s[0]) + (QuoteChars(s[1..]) + rest)
  {
  }

  /** The escaped search text placed in a `'...'` literal is read back by a
      SPARQL parser as the Lucene-escaped text, and the literal ends at the
      template's own closing quote. Line breaks are not escaped, so the
      text must have none. */
  lemma EscapedQueryLiteral(q: string, tail: string)
    requires '\n' !in q && '\r' !in q
    ensures ReadLiteralBody(EscapeQuery(q) + "'" + tail) == Some((LuceneEscape(q), tail))
  {
    LuceneEscapeAddsBackslashes(q);
    ReadQuoted(LuceneEscape(q), "'" + tail);
    assert EscapeQuery(q) + "'" + tail == QuoteChars(LuceneEscape(q)) + ("'" + tail);
    assert ReadLiteralBody("'" + tail) == Some(([], tail)) by {
      assert ("'" + tail)[1..] == tail;
    }
    assert LuceneEscape(q) + [] == LuceneEscape(q);
  }

  /** As written, escapeQuery leaves line breaks raw, and a single-quoted
      SPARQL literal cannot hold a raw line feed or carriage return: a
      search text with a line break anywhere gives a literal no parser
      reads. */
  lemma LineBreakUnreadable(a: string, c: char, b: string, tail: string)
    requires c == '\n' || c == '\r'
    requires '\n' !in a && '\r' !in a
    ensures ReadLiteralBody(EscapeQuery(a + [c] + b) + "'" + tail) == None
  {
    var la, lb := LuceneEscape(a), LuceneEscape(b);
    EscapeQueryBreak(a, c, b);
    var rest := QuoteChars(lb) + "'" + tail;
    assert EscapeQuery(a + [c] + b) + "'" + tail == QuoteChars(la) + ([c] + rest);
    BreakStopsLiteral(a, c, rest);
  }

  /** escapeQuery keeps a line break where it was. */
  lemma EscapeQueryBreak(a: string, c: char, b: string)
    requires c == '\n' || c == '\r'
    ensures EscapeQuery(a + [c] + b) == QuoteChars(LuceneEscape(a)) + ([c] + QuoteChars(LuceneEscape(b)))
  {
    LuceneEscapeBreak(a, c, b);
    QuoteCharsBreak(LuceneEscape(a), c, LuceneEscape(b));
  }

  /** Reading the escaped text of a line-free `a`, the reader reaches the
      raw line break that follows and fails there. */
  lemma BreakStopsLiteral(a: string, c: char, rest: string)
    requires c == '\n' || c == '\r'
    requires '\n' !in a && '\r' !in a
    ensures ReadLiteralBody(QuoteChars(LuceneEscape(a)) + ([c] + rest)) == None
  {
    LuceneEscapeAddsBackslashes(a);
    ReadQuoted(LuceneEscape(a), [c] + rest);
    assert ReadLiteralBody([c] + rest) == None;
  }

  /** Lucene leaves a line break as it is. */
  lemma LuceneEscapeBreak(a: string, c: char, b: string)
    requires c == '\n' || c == '\r'
    ensures LuceneEscape(a + [c] + b) == LuceneEscape(a) + [c] + LuceneEscape(b)
  {
    LuceneEscapeAppend(a, [c] + b);
    LuceneEscapeAppend([c], b);
    assert LuceneEscape([c]) == [c] by {
      assert [c][1..] == [];
    }
    assert a + [c] + b == a + ([c] + b);
  }

  /** So does the string-literal stage of escapeQuery. */
  lemma QuoteCharsBreak(x: string, c: char, y: string)
    requires c == '\n' || c == '\r'
    ensures QuoteChars(x + [c] + y) == QuoteChars(x) + ([c] + QuoteChars(y))
  {
    assert x + [c] + y == x + ([c] + y);
    QuoteCharsAppend(x, [c] + y);
    assert ([c] + y)[1..] == y;
  }

  /** The string-literal stage with line breaks escaped as well: `\n` and
      `\r` become the ECHAR sequences of SPARQL. */
  function QuoteCharLine(c: char): string {
    if c == '\n' then "\\n" else if c == '\r' then "\\r" else QuoteChar(c)
  }

  function QuoteLines(s: string): string
    decreases |s|
  {
    if s == [] then [] else QuoteCharLine(s[0]) + QuoteLines(s[1..])
  }

  /** Corrected escapeQuery: Lucene escaping, then the string-literal stage
      that also escapes line breaks. */
  function EscapeQueryFixed(q: string): string {
    QuoteLines(LuceneEscape(q))
  }

  lemma ReadQuotedLineChar(c: char, tail: string)
    ensures ReadLiteralBody(QuoteCharLine(c) + tail) == PrependValue([c], ReadLiteralBody(tail))
  {
    if c == '\n' || c == '\r' || c == '\\' || c == '\'' {
      assert (QuoteCharLine(c) + tail)[2..] == tail;
    } else {
      assert (QuoteCharLine(c) + tail)[1..] == tail;
    }
  }

  /** Text quoted by the corrected stage is read back as itself, whatever it
      holds. */
  lemma {:induction false} ReadQuotedLines(s: string, rest: string)
    ensures ReadLiteralBody(QuoteLines(s) + rest) == PrependValue(s, ReadLiteralBody(rest))
    decreases |s|
  {
    if s == [] {
      assert QuoteLines(s) + rest == rest;
      match ReadLiteralBody(rest)
      case Some((v, r)) => assert s + v == v;
      case None =>
    } else {
      var c, t := s[0], s[1..];
      assert s == [c] + t;
      ReadQuotedLines(t, rest);
      assert QuoteLines(s) + rest == QuoteCharLine(c) + (QuoteLines(t) + rest);
      ReadQuotedLineChar(c, QuoteLines(t) + rest);
      PrependValueTwice([c], t, ReadLiteralBody(rest));
    }
  }

  /** With the corrected escaping, every search text placed in a `'...'`
      literal is read back as the Lucene-escaped text, and the literal ends
      at the template's own closing quote. */
  lemma EscapedQueryLiteralFixed(q: string, tail: string)
    ensures ReadLiteralBody(EscapeQueryFixed(q) + "'" + tail) == Some((LuceneEscape(q), tail))
  {
    ReadQuotedLines(LuceneEscape(q), "'" + tail);
    assert EscapeQueryFixed(q) + "'" + tail == QuoteLines(LuceneEscape(q)) + ("'" + tail);
    assert ReadLiteralBody("'" + tail) == Some(([], tail)) by {
      assert ("'" + tail)[1..] == tail;
    }
    assert LuceneEscape(q) + [] == LuceneEscape(q);
  }

  lemma {:induction false} QuoteLinesAgree(s: string)
    requires '\n' !in s && '\r' !in s
    ensures QuoteLines(s) == QuoteChars(s)
    decreases |s|
  {
    if s != [] {
      assert s[0] in s;
      assert forall x :: x in s[1..] ==> x in s;
      QuoteLinesAgree(s[1..]);
    }
  }

  /** On text without line breaks the corrected escaping is escapeQuery, so
      everything proved of the composers for such text holds for both. */
  lemma EscapeQueryFixedAgrees(q: string)
    requires '\n' !in q && '\r' !in q
    ensures EscapeQueryFixed(q) == EscapeQuery(q)
  {
    LuceneEscapeAddsBackslashes(q);
    QuoteLinesAgree(LuceneEscape(q));
  }

  /** Two backslashes then a quote: the pair stands for one backslash, so
      the quote is not escaped, and the predicate says so. */
  lemma DoubledBackslashQuoteOpen()
    ensures !QuotesEscaped("\\\\'")
  {
    var r := "\\\\'";
    assert r[2] == '\'';
    assert BackslashRun(r, 1) == 1;
    assert BackslashRun(r, 2) == 2;
  }

  /** The number of backslashes in a row just before position i. */
  function BackslashRun(r: string, i: nat): (n: nat)
    requires i <= |r|
    ensures n <= i
    decreases i
  {
    if i == 0 || r[i - 1] != '\\' then 0 else 1 + BackslashRun(r, i - 1)
  }

  /** Every `'` in the text is preceded by an odd run of backslashes: the
      pairs among them stand for backslashes and the last one escapes the
      quote, so no `'` of the text can close a literal. */
  predicate QuotesEscaped(r: string) {
    forall i :: 0 <= i < |r| && r[i] == '\'' ==> BackslashRun(r, i) % 2 == 1
  }

  /** The text read as escape sequences: `\` followed by any character, or
      one character that is neither `\` nor `'`. */
  predicate EscapeTokens(r: string)
    decreases |r|
  {
    if r == [] then true
    else if r[0] == '\\' then |r| >= 2 && EscapeTokens(r[2..])
    else r[0] != '\'' && EscapeTokens(r[1..])
  }

  lemma {:induction false} BackslashRunPrefix(p: string, r: string, j: nat)
    requires j <= |p|
    ensures BackslashRun(p + r, j) == BackslashRun(p, j)
    decreases j
  {
    if j > 0 {
      assert (p + r)[j - 1] == p[j - 1];
      BackslashRunPrefix(p, r, j - 1);
    }
  }

  /** A run inside the second part of a text either stops there or goes on
      into the first part. */
  lemma {:induction false} BackslashRunShift(p: string, r: string, i: nat)
    requires i <= |r|
    ensures BackslashRun(p + r, |p| + i)
      == if BackslashRun(r, i) < i then BackslashRun(r, i) else i + BackslashRun(p, |p|)
    decreases i
  {
    if i == 0 {
      BackslashRunPrefix(p, r, |p|);
    } else {
      assert (p + r)[|p| + i - 1] == r[i - 1];
      if r[i - 1] == '\\' {
        BackslashRunShift(p, r, i - 1);
      }
    }
  }

  /** Read as escape sequences, a text has an odd run of backslashes before
      each of its quotes. */
  lemma {:induction false} EscapeTokensQuotes(r: string, i: nat)
    requires EscapeTokens(r) && i < |r| && r[i] == '\''
    ensures BackslashRun(r, i) % 2 == 1
    decreases |r|
  {
    if r[0] == '\\' {
      if i == 1 {
        assert BackslashRun(r, 0) == 0;
      } else {
        var p, rest := r[..2], r[2..];
        assert r == p + rest;
        assert rest[i - 2] == r[i];
        EscapeTokensQuotes(rest, i - 2);
        BackslashRunShift(p, rest, i - 2);
        assert BackslashRun(p, 2) == 0 || BackslashRun(p, 2) == 2 by {
          if p[1] == '\\' {
            assert BackslashRun(p, 1) == 1;
          }
        }
      }
    } else {
      var p, rest := r[..1], r[1..];
      assert r == p + rest;
      assert rest[i - 1] == r[i];
      EscapeTokensQuotes(rest, i - 1);
      BackslashRunShift(p, rest, i - 1);
    }
  }

  lemma {:induction false} QuoteCharsTokens(s: string)
    ensures EscapeTokens(QuoteChars(s))
    decreases |s|
  {
    if s != [] {
      QuoteCharsTokens(s[1..]);
      var r := QuoteChars(s);
      assert r == QuoteChar(s[0]) + QuoteChars(s[1..]);
      if s[0] == '\\' || s[0] == '\'' {
        assert r[2..] == QuoteChars(s[1..]);
      } else {
        assert r[1..] == QuoteChars(s[1..]);
      }
    }
  }

  lemma QuoteCharsEscapesQuotes(s: string)
    ensures QuotesEscaped(QuoteChars(s))
  {
    QuoteCharsTokens(s);
    forall i | 0 <= i < |QuoteChars(s)| && QuoteChars(s)[i] == '\''
      ensures BackslashRun(QuoteChars(s), i) % 2 == 1
    {
      EscapeTokensQuotes(QuoteChars(s), i);
    }
  }

  /** In the result of escapeQuery every `'` follows an odd run of
      backslashes. */
  lemma EscapeQueryEscapesQuotes(q: string)
    ensures QuotesEscaped(EscapeQuery(q))
  {
    QuoteCharsEscapesQuotes(LuceneEscape(q));
  }

  /** What one character of the search text becomes. */
  lemma EscapedCharInert(c: char)
    ensures Inert(QuoteChars(LuceneEscapeChar(c)))
  {
    var e := LuceneEscapeChar(c);
    if IsLuceneSpecial(c) {
      assert e[0] == '\\' && e[1..] == [c] && e[1..][1..] == [];
      assert QuoteChars([c]) == QuoteChar(c) + QuoteChars([]);
      assert QuoteChar(c) + [] == QuoteChar(c);
      assert QuoteChars(e) == QuoteChar('\\') + QuoteChar(c);
    } else {
      assert e[1..] == [];
      assert QuoteChars(e) == QuoteChar(c);
    }
  }

  /** The escaped search text never contains "[[" nor starts with '[': Lucene
      escapes every '['. So it cannot be mistaken for a placeholder marker,
      and the templates it is placed in stay tidy. */
  lemma {:induction false} EscapeQueryInert(q: string)
    ensures Inert(EscapeQuery(q))
    decreases |q|
  {
    if q != [] {
      EscapeQueryInert(q[1..]);
      EscapedCharInert(q[0]);
      QuoteCharsAppend(LuceneEscapeChar(q[0]), LuceneEscape(q[1..]));
      InertAppend(QuoteChars(LuceneEscapeChar(q[0])), EscapeQuery(q[1..]));
    }
  }
}
