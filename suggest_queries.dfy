/** The other queries of JenaTextSparqlQueryFactory: type suggestion,
    property suggestion (for a given subject type or for any), sample
    instances of a type and entity search. Each is read against its
    skeleton: the chain of replace calls fills the skeleton's slots at once
    and leaves no placeholder. Two of them pass their values through
    String.replaceAll, whose replacement strings treat `\` and `$` as
    special; that undoes the escaping of the search text in one and lets
    raw text through in the other, and both are modelled as written next to
    a corrected version. */
module SuggestQueries {
  import opened Wrappers
  import opened Text
  import opened Templates
  import opened JavaRegex
  import opened Escaping
  import opened QueryTemplates
  import opened Filters
  import opened Chains
  import opened QueryFactory

  // Facts about the values the queries insert

  /** The placeholder names these queries fill are valid and different. */
  lemma SuggestNamesOk()
    ensures ValidName(QueryName) && ValidName(LimitName) && ValidName(TypeUriName) && ValidName(PropertyUriName)
    ensures QueryName != LimitName && QueryName != TypeUriName && LimitName != TypeUriName
    ensures TypeUriName != PropertyUriName && PropertyUriName != LimitName
  {
    assert QueryName[0] != LimitName[0];
    assert |QueryName| == 5 && |LimitName| == 5 && |TypeUriName| == 8 && |PropertyUriName| == 12;
  }

  /** The decimal text of a limit is inserted as written by replaceAll and
      cannot be mistaken for a placeholder. */
  lemma LimitTextPlain(limit: int)
    ensures Plain(DecimalString(limit)) && Inert(DecimalString(limit))
  {
    LimitTextInert(limit);
  }

  /** Expanding the quoted text as a replacement string removes the quoting
      again: `\\` gives `\` and `\'` gives `'`. */
  lemma {:induction false} ExpandQuoteChars(w: string, matched: string)
    requires '$' !in w
    ensures Expand(QuoteChars(w), matched) == Ok(w)
    decreases |w|
  {
    if w != [] {
      assert w[0] in w;
      assert forall c :: c in w[1..] ==> c in w;
      ExpandQuoteChars(w[1..], matched);
      var rest := QuoteChars(w[1..]);
      if w[0] == '\\' || w[0] == '\'' {
        ExpandEscapeStep(w[0], rest, matched);
        assert QuoteChars(w) == ['\\', w[0]] + rest;
      } else {
        ExpandCopyStep(w[0], rest, matched);
        assert QuoteChars(w) == [w[0]] + rest;
      }
      assert [w[0]] + w[1..] == w;
    }
  }

  /** Lucene's escaping alone already escapes every '[', so its output
      cannot be mistaken for a placeholder either. */
  lemma {:induction false} LuceneEscapeInert(q: string)
    ensures Inert(LuceneEscape(q))
    decreases |q|
  {
    if q != [] {
      LuceneEscapeInert(q[1..]);
      var e := LuceneEscapeChar(q[0]);
      assert Inert(e) by {
        if IsLuceneSpecial(q[0]) {
          assert e == ['\\', q[0]];
        } else {
          assert e == [q[0]];
        }
      }
      InertAppend(e, LuceneEscape(q[1..]));
    }
  }

  /** A `$` in the Lucene-escaped text comes from the search text itself. */
  lemma LuceneEscapeNoDollar(q: string)
    requires '$' !in q
    ensures '$' !in LuceneEscape(q)
  {
    LuceneEscapeAddsBackslashes(q);
  }

  /** A slot's marker occurs in the template's text. */
  lemma SlotOccurs(a: Template, n: string, b: Template)
    ensures Occurs(Render(a + [Hole(n)] + b), Marker(n))
  {
    RenderAroundSlot(a, n, b);
    MarkerNonEmpty(n);
    OccursBetween(Render(a), Marker(n), Render(b));
  }

  lemma MarkerNonEmpty(n: string)
    ensures |Marker(n)| > 0
  {
  }

  /** A non-empty text occurs where it is placed. */
  lemma OccursBetween(x: string, m: string, y: string)
    requires |m| > 0
    ensures Occurs(x + m + y, m)
  {
    assert (x + m + y)[|x|..|x| + |m|] == m;
    assert MatchAt(x + m + y, m, |x|);
  }

  // The search text in a SPARQL literal

  /** The escaped search text placed before the skeletons' `*'` is read back
      as the Lucene-escaped text followed by the wildcard, and the literal
      ends at the skeleton's own quote. */
  lemma EscapedPrefixLiteral(q: string, tail: string)
    requires '\n' !in q && '\r' !in q
    ensures ReadLiteralBody(EscapeQuery(q) + "*' " + tail) == Some((LuceneEscape(q) + "*", " " + tail))
  {
    var le := LuceneEscape(q);
    assert '\n' !in le && '\r' !in le by {
      LuceneEscapeAddsBackslashes(q);
    }
    ReadQuoted(le, "*' " + tail);
    StarThenQuote(tail);
    assert EscapeQuery(q) + "*' " + tail == QuoteChars(le) + ("*' " + tail);
  }

  /** The skeletons' `*'` ends a literal with a wildcard. */
  lemma StarThenQuote(tail: string)
    ensures ReadLiteralBody("*' " + tail) == Some(("*", " " + tail))
  {
    var r := "*' " + tail;
    assert r[1..] == "' " + tail;
    assert r[1..][1..] == " " + tail;
    assert ReadLiteralBody(r[1..]) == Some(([], " " + tail));
    assert ReadLiteralBody(r) == PrependValue("*", ReadLiteralBody(r[1..]));
    assert "*" + [] == "*";
  }

  /** Text with an apostrophe that no backslash protects closes the literal
      early: "it's" is read as the literal "it" followed by stray text. */
  lemma UnquotedApostrophe(tail: string)
    ensures LuceneEscape("it's") == "it's"
    ensures ReadLiteralBody("it's" + "*' " + tail) == Some(("it", "s*' " + tail))
  {
    ApostropheNotEscaped();
    var r := "it's" + "*' " + tail;
    assert r[0] == 'i' && r[1..][0] == 't' && r[1..][1..][0] == '\'';
    assert r[1..][1..][1..] == "s*' " + tail;
    assert ReadLiteralBody(r[1..][1..]) == Some(([], "s*' " + tail));
    assert ReadLiteralBody(r[1..]) == PrependValue("t", ReadLiteralBody(r[1..][1..]));
    assert ReadLiteralBody(r) == PrependValue("i", ReadLiteralBody(r[1..]));
    assert "t" + [] == "t" && "i" + "t" == "it";
  }

  /** Lucene does not escape the apostrophe. */
  lemma ApostropheNotEscaped()
    ensures LuceneEscape("it's") == "it's"
  {
    var w := "it's";
    assert LuceneEscape(w[3..]) == "s" by {
      assert w[3..][1..] == [];
    }
    assert LuceneEscape(w[2..]) == "'s" by {
      assert w[2..][1..] == w[3..];
    }
    assert LuceneEscape(w[1..]) == "t's" by {
      assert w[1..][1..] == w[2..];
    }
  }

  /** A marker found in a part of a text is found in the whole. */
  lemma OccursWithin(a: string, s: string, b: string, pat: string)
    requires Occurs(s, pat)
    ensures Occurs(a + s + b, pat)
  {
    var i: nat :| i < |s| && MatchAt(s, pat, i);
    assert (a + s + b)[|a| + i..|a| + i + |pat|] == s[i..i + |pat|];
    assert MatchAt(a + s + b, pat, |a| + i);
  }

  /** The query marker occurs in the text of a template that has the two
      first pieces of a score line and then a query slot. */
  lemma QueryOccursAfter(a: Template, p: Template, b: Template)
    requires p == PropertyScore1 || p == PropertyScore2
    ensures Occurs(Render(a + p + b), Marker(QueryName))
  {
    SlotOccurs(p[..2], QueryName, []);
    assert p[..2] + [Hole(QueryName)] + [] == p;
    RenderAppend(a, p);
    RenderAppend(a + p, b);
    OccursWithin(Render(a), Render(p), Render(b), Marker(QueryName));
  }

  // getTypeSuggestSparqlQuery

  /** The search text by String.replace, then the limit by replaceAll. */
  function TypeSuggestQuery(prefix: string, limit: int): Result<string, ReplaceError> {
    JavaReplaceAll(ReplaceAll(Render(SuggestTypeTemplate), Marker(QueryName), EscapeQuery(prefix)),
      Marker(LimitName), DecimalString(limit))
  }

  /** For every search text and limit: no exception, and the query is the
      type-suggest skeleton with the escaped search text and the limit in
      their slots, with no placeholder left. */
  lemma TypeSuggestFills(prefix: string, limit: int)
    ensures TypeSuggestQuery(prefix, limit)
      == Ok(Render(Substitute(SuggestTypeTemplate, Env2(QueryName, EscapeQuery(prefix), LimitName, DecimalString(limit)))))
    ensures Inert(TypeSuggestQuery(prefix, limit).value)
  {
    var eq := EscapeQuery(prefix);
    var lt := DecimalString(limit);
    var s := Render(SuggestTypeTemplate);
    TypeSuggestReady(prefix, limit);
    JavaReplaceAllPlain(ReplaceAll(s, Marker(QueryName), eq), Marker(LimitName), lt);
    ReplacePasses2(s, Pass(QueryName, Filler(eq)), Pass(LimitName, Filler(lt)));
    Chain2Fills(SuggestTypeTemplate, QueryName, eq, LimitName, lt);
  }

  lemma TypeSuggestReady(prefix: string, limit: int)
    ensures ValidName(QueryName) && ValidName(LimitName) && QueryName != LimitName
    ensures Inert(EscapeQuery(prefix)) && Plain(DecimalString(limit)) && Inert(DecimalString(limit))
    ensures WellFormed(SuggestTypeTemplate, {QueryName, LimitName})
  {
    SuggestNamesOk();
    EscapeQueryInert(prefix);
    LimitTextPlain(limit);
    SuggestTypeWellFormed();
  }

  // getPropertySuggestSparqlQuery(prefix, typeUri, limit)

  /** As written: the escaped search text and the limit by replaceAll, the
      type URI by String.replace. The escaped search text is taken as a
      replacement string, so its backslashes are read as escapes. A `$`
      in it refers to a group of the match: `$0` inserts the matched
      marker, `$1` to `$9` throw IndexOutOfBoundsException, and any other
      `$` throws IllegalArgumentException. */
  function PropertySuggestOfTypeQuery(prefix: string, typeUri: string, limit: int): Result<string, ReplaceError> {
    match JavaReplaceAll(Render(SuggestPropertyOfTypeTemplate), Marker(QueryName), EscapeQuery(prefix))
    case Err(e) => Err(e)
    case Ok(s1) =>
      match JavaReplaceAll(s1, Marker(LimitName), DecimalString(limit))
      case Err(e) => Err(e)
      case Ok(s2) => Ok(ReplaceAll(s2, Marker(TypeUriName), typeUri))
  }

  lemma PropertySuggestOfTypeReady(limit: int, typeUri: string)
    requires Inert(typeUri)
    ensures ValidName(QueryName) && ValidName(LimitName) && ValidName(TypeUriName)
    ensures QueryName != LimitName && QueryName != TypeUriName && LimitName != TypeUriName
    ensures Plain(DecimalString(limit)) && Inert(DecimalString(limit))
    ensures WellFormed(SuggestPropertyOfTypeTemplate, {QueryName, LimitName, TypeUriName})
  {
    SuggestNamesOk();
    LimitTextPlain(limit);
    SuggestPropertyOfTypeWellFormed();
  }

  /** Without a `$` in the search text the query is built, but what lands in
      the query slots is the Lucene-escaped text without its string-literal
      quoting: the backslashes escapeQuery added before `\` and `'` are gone. */
  lemma PropertySuggestOfTypeUnquoted(prefix: string, typeUri: string, limit: int)
    requires '$' !in prefix && Inert(typeUri)
    ensures PropertySuggestOfTypeQuery(prefix, typeUri, limit)
      == Ok(Render(Substitute(SuggestPropertyOfTypeTemplate,
          Env3(QueryName, LuceneEscape(prefix), LimitName, DecimalString(limit), TypeUriName, typeUri))))
    ensures Inert(PropertySuggestOfTypeQuery(prefix, typeUri, limit).value)
  {
    var le := LuceneEscape(prefix);
    var lt := DecimalString(limit);
    var s := Render(SuggestPropertyOfTypeTemplate);
    PropertySuggestOfTypeReady(limit, typeUri);
    LuceneEscapeNoDollar(prefix);
    LuceneEscapeInert(prefix);
    ExpandQuoteChars(le, Marker(QueryName));
    JavaReplaceAllExpanded(s, Marker(QueryName), EscapeQuery(prefix), le);
    JavaReplaceAllPlain(ReplaceAll(s, Marker(QueryName), le), Marker(LimitName), lt);
    ReplacePasses3(s, Pass(QueryName, Filler(le)), Pass(LimitName, Filler(lt)), Pass(TypeUriName, Filler(typeUri)));
    Chain3Fills(SuggestPropertyOfTypeTemplate, QueryName, le, LimitName, lt, TypeUriName, typeUri);
  }

  /** A search text of a single `$` makes the query builder throw
      IllegalArgumentException. */
  lemma PropertySuggestOfTypeDollar(typeUri: string, limit: int)
    ensures PropertySuggestOfTypeQuery("$", typeUri, limit) == Err(IllegalArgument)
  {
    var d := "$";
    assert LuceneEscape(d) == "$" by {
      assert d[1..] == [];
    }
    assert QuoteChars("$") == "$" by {
      assert "$"[1..] == [];
    }
    assert Expand(EscapeQuery(d), Marker(QueryName)) == Err(IllegalArgument);
    QueryOccursInPropertyOfType();
  }

  /** A group reference `$d` passes both escaping stages unchanged. */
  lemma EscapeGroupRef(d: char)
    requires IsDigit(d)
    ensures EscapeQuery(['$', d]) == ['$', d]
  {
    var w := ['$', d];
    assert LuceneEscape(w[1..]) == [d] by {
      assert w[1..][1..] == [];
    }
    assert LuceneEscape(w) == w;
    assert QuoteChars(w[1..]) == [d] by {
      assert w[1..][1..] == [];
    }
    assert QuoteChars(w) == w;
  }

  /** A search text `$1` refers to a capture group the pattern does not
      have, so the query builder throws IndexOutOfBoundsException. */
  lemma PropertySuggestOfTypeGroupRef(typeUri: string, limit: int)
    ensures PropertySuggestOfTypeQuery("$1", typeUri, limit) == Err(NoSuchGroup(1))
  {
    EscapeGroupRef('1');
    assert Expand(EscapeQuery("$1"), Marker(QueryName)) == Err(NoSuchGroup(1));
    QueryOccursInPropertyOfType();
  }

  /** A search text `$0` is group 0, the matched marker: the first pass puts
      `[[QUERY]]` back where it was, no search text reaches the query, and
      the remaining passes run over the untouched skeleton. */
  lemma PropertySuggestOfTypeGroupZero(typeUri: string, limit: int)
    ensures PropertySuggestOfTypeQuery("$0", typeUri, limit)
      == Ok(ReplaceAll(ReplaceAll(Render(SuggestPropertyOfTypeTemplate), Marker(LimitName), DecimalString(limit)),
          Marker(TypeUriName), typeUri))
  {
    var s := Render(SuggestPropertyOfTypeTemplate);
    EscapeGroupRef('0');
    SuggestNamesOk();
    LimitTextPlain(limit);
    JavaReplaceAllGroupZero(s, Marker(QueryName));
    JavaReplaceAllPlain(s, Marker(LimitName), DecimalString(limit));
  }

  lemma QueryOccursInPropertyOfType()
    ensures Occurs(Render(SuggestPropertyOfTypeTemplate), Marker(QueryName))
  {
    var a := SuggestPrefixes + PropertyColumns + PropertyOfTypeWhere;
    var b := StarLimit + PropertyLabel1 + PropertyOfTypePrefLabel + BoundLabelFilter + LimitEnd;
    assert SuggestPropertyOfTypeTemplate == a + PropertyScore1 + b;
    QueryOccursAfter(a, PropertyScore1, b);
  }

  /** Corrected: every value by String.replace, the search text escaped. */
  function PropertySuggestOfTypeQueryFixed(prefix: string, typeUri: string, limit: int): string {
    ReplaceAll(ReplaceAll(ReplaceAll(Render(SuggestPropertyOfTypeTemplate), Marker(QueryName), EscapeQuery(prefix)),
      Marker(LimitName), DecimalString(limit)), Marker(TypeUriName), typeUri)
  }

  /** The corrected query is the skeleton with the escaped search text, the
      limit and the type URI in their slots, and no placeholder is left;
      by EscapedPrefixLiteral its search literal reads back as the
      Lucene-escaped text. */
  lemma PropertySuggestOfTypeFixedFills(prefix: string, typeUri: string, limit: int)
    requires Inert(typeUri)
    ensures PropertySuggestOfTypeQueryFixed(prefix, typeUri, limit)
      == Render(Substitute(SuggestPropertyOfTypeTemplate,
          Env3(QueryName, EscapeQuery(prefix), LimitName, DecimalString(limit), TypeUriName, typeUri)))
    ensures Inert(PropertySuggestOfTypeQueryFixed(prefix, typeUri, limit))
  {
    var eq := EscapeQuery(prefix);
    var lt := DecimalString(limit);
    PropertySuggestOfTypeReady(limit, typeUri);
    EscapeQueryInert(prefix);
    ReplacePasses3(Render(SuggestPropertyOfTypeTemplate), Pass(QueryName, Filler(eq)), Pass(LimitName, Filler(lt)),
      Pass(TypeUriName, Filler(typeUri)));
    Chain3Fills(SuggestPropertyOfTypeTemplate, QueryName, eq, LimitName, lt, TypeUriName, typeUri);
  }

  /** Corrected the other way: the same replaceAll calls, the escaped search
      text passed through Matcher.quoteReplacement first. */
  function PropertySuggestOfTypeQueryQuoted(prefix: string, typeUri: string, limit: int): Result<string, ReplaceError> {
    match JavaReplaceAll(Render(SuggestPropertyOfTypeTemplate), Marker(QueryName), QuoteReplacement(EscapeQuery(prefix)))
    case Err(e) => Err(e)
    case Ok(s1) =>
      match JavaReplaceAll(s1, Marker(LimitName), DecimalString(limit))
      case Err(e) => Err(e)
      case Ok(s2) => Ok(ReplaceAll(s2, Marker(TypeUriName), typeUri))
  }

  /** Quoting the replacement is the same correction as a literal replace:
      it never throws, and it builds the corrected query for every input. */
  lemma PropertySuggestOfTypeQuotedFixes(prefix: string, typeUri: string, limit: int)
    ensures PropertySuggestOfTypeQueryQuoted(prefix, typeUri, limit)
      == Ok(PropertySuggestOfTypeQueryFixed(prefix, typeUri, limit))
  {
    var eq := EscapeQuery(prefix);
    var lt := DecimalString(limit);
    var s := Render(SuggestPropertyOfTypeTemplate);
    SuggestNamesOk();
    ExpandQuoted(eq, Marker(QueryName));
    JavaReplaceAllExpanded(s, Marker(QueryName), QuoteReplacement(eq), eq);
    LimitTextPlain(limit);
    JavaReplaceAllPlain(ReplaceAll(s, Marker(QueryName), eq), Marker(LimitName), lt);
  }

  // getPropertySuggestSparqlQuery(prefix, limit)

  /** As written: the search text, not escaped, and the limit by replaceAll. */
  function PropertySuggestQuery(prefix: string, limit: int): Result<string, ReplaceError> {
    match JavaReplaceAll(Render(SuggestPropertyTemplate), Marker(QueryName), prefix)
    case Err(e) => Err(e)
    case Ok(s1) => JavaReplaceAll(s1, Marker(LimitName), DecimalString(limit))
  }

  lemma PropertySuggestReady(limit: int)
    ensures ValidName(QueryName) && ValidName(LimitName) && QueryName != LimitName
    ensures Plain(DecimalString(limit)) && Inert(DecimalString(limit))
    ensures WellFormed(SuggestPropertyTemplate, {QueryName, LimitName})
  {
    SuggestNamesOk();
    LimitTextPlain(limit);
    SuggestPropertyWellFormed();
  }

  /** A search text without `\` or `$` lands in the query slots raw: neither
      Lucene-escaped nor quoted for the SPARQL literal. */
  lemma PropertySuggestRaw(prefix: string, limit: int)
    requires Plain(prefix) && Inert(prefix)
    ensures PropertySuggestQuery(prefix, limit)
      == Ok(Render(Substitute(SuggestPropertyTemplate, Env2(QueryName, prefix, LimitName, DecimalString(limit)))))
    ensures Inert(PropertySuggestQuery(prefix, limit).value)
  {
    var lt := DecimalString(limit);
    var s := Render(SuggestPropertyTemplate);
    PropertySuggestReady(limit);
    JavaReplaceAllPlain(s, Marker(QueryName), prefix);
    JavaReplaceAllPlain(ReplaceAll(s, Marker(QueryName), prefix), Marker(LimitName), lt);
    ReplacePasses2(s, Pass(QueryName, Filler(prefix)), Pass(LimitName, Filler(lt)));
    Chain2Fills(SuggestPropertyTemplate, QueryName, prefix, LimitName, lt);
  }

  /** For every search text without `\` or `$`, placeholders included, the
      composer is two String.replace calls in a row: the limit pass runs
      over the spliced search text too, so a `[[LIMIT]]` typed by the user
      receives the limit. */
  lemma PropertySuggestPlain(prefix: string, limit: int)
    requires Plain(prefix)
    ensures PropertySuggestQuery(prefix, limit)
      == Ok(ReplaceAll(ReplaceAll(Render(SuggestPropertyTemplate), Marker(QueryName), prefix),
        Marker(LimitName), DecimalString(limit)))
  {
    var s := Render(SuggestPropertyTemplate);
    SuggestNamesOk();
    LimitTextPlain(limit);
    JavaReplaceAllPlain(s, Marker(QueryName), prefix);
    JavaReplaceAllPlain(ReplaceAll(s, Marker(QueryName), prefix), Marker(LimitName), DecimalString(limit));
  }

  /** A search text of a single backslash makes the query builder throw
      IllegalArgumentException. */
  lemma PropertySuggestBackslash(limit: int)
    ensures PropertySuggestQuery("\\", limit) == Err(IllegalArgument)
  {
    assert Expand("\\", Marker(QueryName)) == Err(IllegalArgument);
    QueryOccursInProperty();
  }

  lemma QueryOccursInProperty()
    ensures Occurs(Render(SuggestPropertyTemplate), Marker(QueryName))
  {
    var a := SuggestPrefixes + PropertyColumns + PropertyWhere;
    var b := PropertyStarLimit + PropertyLabel1 + PropertyPrefLabel + BoundLabelFilter + PropertyEnd;
    assert SuggestPropertyTemplate == a + PropertyScore1 + b;
    QueryOccursAfter(a, PropertyScore1, b);
  }

  /** Corrected: the search text escaped as in the other queries, every
      value by String.replace. */
  function PropertySuggestQueryFixed(prefix: string, limit: int): string {
    ReplaceAll(ReplaceAll(Render(SuggestPropertyTemplate), Marker(QueryName), EscapeQuery(prefix)),
      Marker(LimitName), DecimalString(limit))
  }

  lemma PropertySuggestFixedFills(prefix: string, limit: int)
    ensures PropertySuggestQueryFixed(prefix, limit)
      == Render(Substitute(SuggestPropertyTemplate, Env2(QueryName, EscapeQuery(prefix), LimitName, DecimalString(limit))))
    ensures Inert(PropertySuggestQueryFixed(prefix, limit))
  {
    var eq := EscapeQuery(prefix);
    var lt := DecimalString(limit);
    PropertySuggestReady(limit);
    EscapeQueryInert(prefix);
    ReplacePasses2(Render(SuggestPropertyTemplate), Pass(QueryName, Filler(eq)), Pass(LimitName, Filler(lt)));
    Chain2Fills(SuggestPropertyTemplate, QueryName, eq, LimitName, lt);
  }

  // getSampleInstancesSparqlQuery

  /** The type URI, the first label property and the limit by
      String.replace; with no label property, `get(0)` throws (None). */
  function SampleInstancesQuery(typeUri: string, searchPropertyUris: seq<string>, limit: int): Option<string> {
    if searchPropertyUris == [] then None
    else Some(ReplaceAll(ReplaceAll(ReplaceAll(Render(SampleInstancesTemplate), Marker(TypeUriName), typeUri),
      Marker(PropertyUriName), searchPropertyUris[0]), Marker(LimitName), DecimalString(limit)))
  }

  lemma SampleInstancesReady(limit: int)
    ensures ValidName(TypeUriName) && ValidName(PropertyUriName) && ValidName(LimitName)
    ensures TypeUriName != PropertyUriName && TypeUriName != LimitName && PropertyUriName != LimitName
    ensures Inert(DecimalString(limit))
    ensures WellFormed(SampleInstancesTemplate, {TypeUriName, PropertyUriName, LimitName})
  {
    SuggestNamesOk();
    LimitTextInert(limit);
    SampleInstancesWellFormed();
  }

  /** No query without a label property; otherwise the sample skeleton with
      the type URI, the first label property and the limit in their slots,
      and no placeholder left. */
  lemma SampleInstancesFills(typeUri: string, searchPropertyUris: seq<string>, limit: int)
    requires Inert(typeUri) && InertUris(searchPropertyUris)
    ensures searchPropertyUris == [] ==> SampleInstancesQuery(typeUri, searchPropertyUris, limit) == None
    ensures searchPropertyUris != [] ==>
      SampleInstancesQuery(typeUri, searchPropertyUris, limit)
        == Some(Render(Substitute(SampleInstancesTemplate, Env3(TypeUriName, typeUri, PropertyUriName,
          searchPropertyUris[0], LimitName, DecimalString(limit)))))
      && Inert(SampleInstancesQuery(typeUri, searchPropertyUris, limit).value)
  {
    if searchPropertyUris != [] {
      var u := searchPropertyUris[0];
      var lt := DecimalString(limit);
      SampleInstancesReady(limit);
      ReplacePasses3(Render(SampleInstancesTemplate), Pass(TypeUriName, Filler(typeUri)),
        Pass(PropertyUriName, Filler(u)), Pass(LimitName, Filler(lt)));
      Chain3Fills(SampleInstancesTemplate, TypeUriName, typeUri, PropertyUriName, u, LimitName, lt);
    }
  }

  // getEntitySearchSparqlQuery

  /** The label filter, the limit times the number of label properties in
      Java int arithmetic (no floor at one, unlike reconciliation), then the
      chain of String.replace calls. */
  function EntitySearchQuery(prefix: string, searchPropertyUris: seq<string>, limit: int): string
    requires IsInt32(|searchPropertyUris|) && IsInt32(limit)
  {
    var labelFilter := LabelFilter(searchPropertyUris);
    var calculatedLimit := DecimalString(MulInt32(|searchPropertyUris|, limit));
    ReplaceAll(ReplaceAll(ReplaceAll(ReplaceAll(ReplaceAll(Render(SearchEntityTemplate),
      Marker(QueryName), EscapeQuery(prefix)), Marker(LabelPropertyFilterName), labelFilter),
      Marker(QueryName), EscapeQuery(prefix)), Marker(LimitName), calculatedLimit), Marker(LimitName), calculatedLimit)
  }

  /** getEntitySearchSparqlQuery, with the label filter built by its loop. */
  method GetEntitySearchSparqlQuery(prefix: string, searchPropertyUris: seq<string>, limit: int)
      returns (query: string)
    requires IsInt32(|searchPropertyUris|) && IsInt32(limit)
    ensures query == EntitySearchQuery(prefix, searchPropertyUris, limit)
  {
    var labelFilter := BuildLabelFilter(searchPropertyUris);
    var calculatedLimit := MulInt32(|searchPropertyUris|, limit);
    var escaped := EscapeQuery(prefix);
    query := ReplaceAll(Render(SearchEntityTemplate), Marker(QueryName), escaped);
    query := ReplaceAll(query, Marker(LabelPropertyFilterName), labelFilter);
    query := ReplaceAll(query, Marker(QueryName), escaped);
    query := ReplaceAll(query, Marker(LimitName), DecimalString(calculatedLimit));
    query := ReplaceAll(query, Marker(LimitName), DecimalString(calculatedLimit));
  }

  lemma SearchNamesOk()
    ensures ValidName(QueryName) && ValidName(LimitName) && ValidName(LabelPropertyFilterName)
    ensures QueryName != LimitName && LabelPropertyFilterName != QueryName && LabelPropertyFilterName != LimitName
  {
    SuggestNamesOk();
    assert ValidName(LabelPropertyFilterName);
    assert |LabelPropertyFilterName| == 21;
  }

  lemma EntitySearchValuesInert(prefix: string, n: int, limit: int)
    requires IsInt32(n) && IsInt32(limit)
    ensures Inert(EscapeQuery(prefix)) && Inert(DecimalString(MulInt32(n, limit)))
  {
    EscapeQueryInert(prefix);
    LimitTextInert(MulInt32(n, limit));
  }

  lemma EntitySearchTemplatesOk(searchPropertyUris: seq<string>)
    requires InertUris(searchPropertyUris)
    ensures WellFormed(SearchEntityTemplate, {LabelPropertyFilterName, LimitName})
    ensures WellFormed(LabelFilterTemplate(searchPropertyUris), {QueryName, LimitName})
    ensures Render(LabelFilterTemplate(searchPropertyUris)) == LabelFilter(searchPropertyUris)
  {
    SearchEntityWellFormed();
    LabelFilterWellFormed(searchPropertyUris);
    LabelFilterText(searchPropertyUris);
  }

  /** getEntitySearchSparqlQuery runs the search chain on the skeleton. */
  lemma EntitySearchChain(prefix: string, searchPropertyUris: seq<string>, limit: int)
    requires IsInt32(|searchPropertyUris|) && IsInt32(limit)
    ensures EntitySearchQuery(prefix, searchPropertyUris, limit)
      == ReplacePasses(Render(SearchEntityTemplate), SearchChain(QueryName, LimitName, LabelPropertyFilterName,
        EscapeQuery(prefix), DecimalString(MulInt32(|searchPropertyUris|, limit)), LabelFilterTemplate(searchPropertyUris)))
  {
    LabelFilterText(searchPropertyUris);
    SearchChainText(Render(SearchEntityTemplate), QueryName, LimitName, LabelPropertyFilterName, EscapeQuery(prefix),
      DecimalString(MulInt32(|searchPropertyUris|, limit)), LabelFilterTemplate(searchPropertyUris));
  }

  /** The label filter goes into its slot first; then every query and limit
      slot, the label filter's own included, receives the escaped search
      text and the limit times the number of label properties. No
      placeholder is left. */
  lemma EntitySearchFills(prefix: string, searchPropertyUris: seq<string>, limit: int)
    requires IsInt32(|searchPropertyUris|) && IsInt32(limit) && InertUris(searchPropertyUris)
    ensures EntitySearchQuery(prefix, searchPropertyUris, limit)
      == Render(Substitute(Substitute(SearchEntityTemplate,
          map[LabelPropertyFilterName := LabelFilterTemplate(searchPropertyUris)]),
          SearchEnv(QueryName, LimitName, EscapeQuery(prefix), DecimalString(MulInt32(|searchPropertyUris|, limit)))))
    ensures Inert(EntitySearchQuery(prefix, searchPropertyUris, limit))
  {
    var eq := EscapeQuery(prefix);
    var lt := DecimalString(MulInt32(|searchPropertyUris|, limit));
    var lv := LabelFilterTemplate(searchPropertyUris);
    SearchNamesOk();
    EntitySearchValuesInert(prefix, |searchPropertyUris|, limit);
    EntitySearchTemplatesOk(searchPropertyUris);
    EntitySearchChain(prefix, searchPropertyUris, limit);
    SearchChainFills(SearchEntityTemplate, QueryName, LimitName, LabelPropertyFilterName, eq, lt, lv);
  }

  /** The LIMIT text reads back as the number of label properties times the
      limit when that fits in an int; with no label property it is 0. */
  lemma EntitySearchLimitText(n: nat, limit: int)
    requires IsInt32(n) && IsInt32(limit)
    ensures IsInt32(n * limit) ==> ParseDecimal(DecimalString(MulInt32(n, limit))) == n * limit
    ensures n == 0 ==> ParseDecimal(DecimalString(MulInt32(n, limit))) == 0
  {
    DecimalRoundTrip(MulInt32(n, limit));
  }
}
