# Jena Text SPARQL query factory, modelled in Dafny

This project models `JenaTextSparqlQueryFactory` from the grefine-rdf-extension.
The factory writes the SPARQL queries a reconciliation service sends to a Jena
Text store, and it reads back the answers of its suggest queries:

- **Escaping.** `escapeQuery` runs Lucene's `QueryParser.escape` on the search
  text. It then doubles every backslash and puts a backslash before every `'`,
  so the text can sit inside a single-quoted `text:query` phrase.
- **Filters.**
  - The type filter is a UNION of `rdf:type` blocks.
  - The context filter is one `?entity <pid> value. ` clause per context
    property.
  - The label filter is a UNION of one `text:query` disjunct per label property.
- **Query composers.**
  - reconciliation: the single-property skeleton for exactly one label
    property, the UNION skeleton otherwise; the limit is `max(n, 1) * limit`;
  - type suggest and property suggest, with or without a subject type;
  - sample instances;
  - entity search, whose limit is `n * limit`.

  Each composer fills a constant skeleton with a chain of `String.replace` or
  `String.replaceAll` calls.
- **Result interpretation.**
  - `getPreferredLabel` picks one of two optional (label, score) pairs of a row.
  - The two wrap methods turn the rows into (URI, label) items, in order.

## How the model is built

The model has the following modules.

- `Text`:
  - `ReplaceAll` is Java's `String.replace`: literal, left to right, without
    overlap.
  - `MulInt32` is Java `int` multiplication, wrap-around included.
  - `DecimalString` is `String.valueOf(int)`; `ParseDecimal` reads it back.
- `JavaRegex`: `JavaReplaceAll` is `String.replaceAll` with a literal pattern.
  It expands the replacement string as `Matcher` does:
  - `\x` gives `x`;
  - `$` followed by a digit refers to a capture group. The patterns here have
    no groups of their own, so `$0` inserts the matched marker, and `$1` to
    `$9` throw `IndexOutOfBoundsException`;
  - any other `$`, or a trailing `\`, throws `IllegalArgumentException`.

  A pattern that does not occur leaves the text unchanged, and then nothing
  is thrown.
- `Escaping`:
  - `LuceneEscape` is `QueryParser.escape` over its documented set of special
    characters;
  - `QuoteChars` is the string-literal stage;
  - `ReadLiteralBody` reads a single-quoted SPARQL literal back, which is how
    un-escaping is stated.
- `Templates`: a skeleton is a sequence of literal pieces and slots, and
  `Render` writes it out with `[[NAME]]` markers. The module connects the two
  readings of a composer:
  - the textual chain of replace calls on the rendered skeleton;
  - one simultaneous substitution of every slot.

  It also defines `Inert`: a text that has no `[[` and does not start with `[`,
  so that no marker can be found in it or made with it.
- `QueryTemplates`: the skeleton constants piece by piece, each proved well
  formed with its slots named.
- `Filters`: the three filter builders.
- `Chains`: generic lemmas about the replace chains the composers use.
- `QueryFactory`: reconciliation.
- `SuggestQueries`: the other composers.
- `ResultWrapping`: the result interpreter.

Proved:

- what each composed query is: its skeleton with every slot filled, and no
  marker left over. This holds for every input for the type-suggest query
  and the corrected property-suggest query without a subject type. The
  `quoteReplacement` correction of line 85 never throws and equals the
  literal-replace correction for every input. The corrected query with a
  subject type, and the reconciliation, sample-instances and entity-search
  queries, are described for inert type, context and label-property values
  (see Left out). The two as-written property-suggest composers are
  described for search texts without `$`, and without `\` at line 92. Their
  exceptions are shown on single inputs (see Findings);
- for every input, the round trip of the limit text, and that removing
  Lucene's backslash escapes gives back the search text;
- that the escaped search text reads back from its SPARQL literal when it has
  no line break (a line break makes the literal unreadable, see Findings);
- the label rule, including its tie-break;
- the item list produced by the wrap loops.

## Model

| member | source | states |
|---|---|---|
| Text.MulInt32 | src/main/java/org/deri/grefine/reconcile/rdf/factories/JenaTextSparqlQueryFactory.java:71 | The product of two Java ints is an int that differs from the mathematical product by a multiple of 2^32. It equals that product whenever the product fits in 32 bits. |
| Text.DecimalRoundTrip | src/main/java/org/deri/grefine/reconcile/rdf/factories/JenaTextSparqlQueryFactory.java:78 | `String.valueOf` of an int is an optional sign then digits only, and it parses back to the same int. |
| JavaRegex.JavaReplaceAllExpanded | src/main/java/org/deri/grefine/reconcile/rdf/factories/JenaTextSparqlQueryFactory.java:161 | When the replacement string expands without error to e, `replaceAll` with a literal pattern equals `String.replace` by e. |
| JavaRegex.JavaReplaceAllPlain | src/main/java/org/deri/grefine/reconcile/rdf/factories/JenaTextSparqlQueryFactory.java:29 | A replacement with no `\` and no `$` makes `replaceAll` behave exactly like `String.replace`, and it never throws. |
| JavaRegex.JavaReplaceAllGroupZero | src/main/java/org/deri/grefine/reconcile/rdf/factories/JenaTextSparqlQueryFactory.java:84 | The replacement `$0` is the matched text itself: `replaceAll` gives back its input and does not throw. |
| JavaRegex.ExpandQuoted | src/main/java/org/deri/grefine/reconcile/rdf/factories/JenaTextSparqlQueryFactory.java:85 | A replacement quoted as `Matcher.quoteReplacement` does it expands back to the original text for every input. It backs the `quoteReplacement` correction of line 85 (SuggestQueries.PropertySuggestOfTypeQuotedFixes). |
| Escaping.LuceneRoundTrip | src/main/java/org/deri/grefine/reconcile/rdf/factories/JenaTextSparqlQueryFactory.java:160 | For every text, removing the backslash escapes that `QueryParser.escape` added gives back the original search text, and no special character of its set is left unescaped. Whitespace and the words AND, OR and NOT still act as Lucene operators. |
| Escaping.LuceneEscapeKeeps | src/main/java/org/deri/grefine/reconcile/rdf/factories/JenaTextSparqlQueryFactory.java:160 | Text without a special character, whitespace and AND/OR/NOT included, is left unchanged by `QueryParser.escape`. |
| Escaping.ReplacementsExpand | src/main/java/org/deri/grefine/reconcile/rdf/factories/JenaTextSparqlQueryFactory.java:161 | The Java replacement literals of `escapeQuery` expand to `\\` (two backslashes) and `\'`. |
| Escaping.EscapeQuery | src/main/java/org/deri/grefine/reconcile/rdf/factories/JenaTextSparqlQueryFactory.java:159-162 | Lucene escaping followed by the two `replaceAll` passes never throws. Its result is the Lucene-escaped text with every `\` doubled and every `'` preceded by `\`. |
| Escaping.EscapedQueryLiteral | src/main/java/org/deri/grefine/reconcile/rdf/factories/JenaTextSparqlQueryFactory.java:159-162 | For a search text with no line break, the escaped text followed by a closing `'` reads back as a SPARQL literal holding exactly the Lucene-escaped text. The literal ends at that quote, so un-escaping recovers the Lucene-escaped text. |
| Escaping.LineBreakUnreadable | src/main/java/org/deri/grefine/reconcile/rdf/factories/JenaTextSparqlQueryFactory.java:159-162 | As written, a search text with a line feed or carriage return anywhere gives a literal that a SPARQL parser cannot read, because `escapeQuery` leaves line breaks raw. |
| Escaping.EscapedQueryLiteralFixed | src/main/java/org/deri/grefine/reconcile/rdf/factories/JenaTextSparqlQueryFactory.java:159-162 | Corrected escaping, which also writes line breaks as `\n` and `\r`: for every search text, the literal reads back as the Lucene-escaped text and ends at the closing quote. |
| Escaping.EscapeQueryFixedAgrees | src/main/java/org/deri/grefine/reconcile/rdf/factories/JenaTextSparqlQueryFactory.java:159-162 | On text without line breaks, the corrected escaping gives exactly what `escapeQuery` gives. |
| Escaping.EscapeQueryEscapesQuotes | src/main/java/org/deri/grefine/reconcile/rdf/factories/JenaTextSparqlQueryFactory.java:161 | Every `'` in the escaped text follows an odd run of backslashes: the pairs stand for backslashes and the last one escapes the quote. This holds for every input, line breaks included. |
| Escaping.EscapeQueryInert | src/main/java/org/deri/grefine/reconcile/rdf/factories/JenaTextSparqlQueryFactory.java:159-162 | The escaped text holds no `[[` and does not start with `[`, so no later replace call of a chain can find a marker in it. |
| Templates.FillRender | src/main/java/org/deri/grefine/reconcile/rdf/factories/JenaTextSparqlQueryFactory.java:72 | On a rendered well-formed skeleton, `String.replace` of a marker equals rendering the skeleton with that slot filled. |
| Templates.PassesSubstitute | src/main/java/org/deri/grefine/reconcile/rdf/factories/JenaTextSparqlQueryFactory.java:72-79 | Filling slots one pass after another equals one simultaneous substitution, when no pass's value holds a slot named by another pass. |
| Templates.ChainSubstitute | src/main/java/org/deri/grefine/reconcile/rdf/factories/JenaTextSparqlQueryFactory.java:72-79 | A chain of replace calls on a well-formed skeleton renders the simultaneous substitution, and it leaves no marker in the text. |
| QueryTemplates.SuggestTypeWellFormed | src/main/java/org/deri/grefine/reconcile/rdf/factories/JenaTextSparqlQueryFactory.java:194-206 | The type-suggest skeleton is well formed, and its slots are `QUERY` and `LIMIT`. |
| QueryTemplates.SuggestPropertyOfTypeWellFormed | src/main/java/org/deri/grefine/reconcile/rdf/factories/JenaTextSparqlQueryFactory.java:208-221 | The property-suggest skeleton with a subject type is well formed, and its slots are `QUERY`, `LIMIT` and `TYPE_URI`. |
| QueryTemplates.SuggestPropertyWellFormed | src/main/java/org/deri/grefine/reconcile/rdf/factories/JenaTextSparqlQueryFactory.java:223-236 | The property-suggest skeleton is well formed, and its slots are `QUERY` and `LIMIT`. |
| QueryTemplates.ReconcileWellFormed | src/main/java/org/deri/grefine/reconcile/rdf/factories/JenaTextSparqlQueryFactory.java:238-250 | The UNION reconciliation skeleton is well formed, and its slots are the label filter, the type filter, the context filter and `LIMIT`. |
| QueryTemplates.SingleReconcileWellFormed | src/main/java/org/deri/grefine/reconcile/rdf/factories/JenaTextSparqlQueryFactory.java:252-264 | The single-property skeleton is well formed, and its slots are the label property URI, `QUERY`, `LIMIT` and the type and context filters. |
| QueryTemplates.PropertyFilterWellFormed | src/main/java/org/deri/grefine/reconcile/rdf/factories/JenaTextSparqlQueryFactory.java:266 | `PROPERTY_FILTER` is well formed, and its slots are `PROPERTY_URI` and `VALUE`. |
| QueryTemplates.SampleInstancesWellFormed | src/main/java/org/deri/grefine/reconcile/rdf/factories/JenaTextSparqlQueryFactory.java:268-273 | The sample-instances skeleton is well formed, and its slots are `TYPE_URI`, `PROPERTY_URI` and `LIMIT`. |
| QueryTemplates.SearchEntityWellFormed | src/main/java/org/deri/grefine/reconcile/rdf/factories/JenaTextSparqlQueryFactory.java:275-282 | The entity-search skeleton is well formed, and its slots are the label filter and `LIMIT`. |
| Filters.TypeFilterShape | src/main/java/org/deri/grefine/reconcile/rdf/factories/JenaTextSparqlQueryFactory.java:41-44 | The type filter is empty exactly when there are no types. Otherwise it is ` {` + one `{?entity rdf:type <T>. }` block per type, in order, joined by ` UNION `, + `}`. |
| Filters.TypeFilterInert | src/main/java/org/deri/grefine/reconcile/rdf/factories/JenaTextSparqlQueryFactory.java:41-44 | A type filter built from inert type URIs holds no marker. |
| Filters.ContextFilterShape | src/main/java/org/deri/grefine/reconcile/rdf/factories/JenaTextSparqlQueryFactory.java:46-49 | Filling `PROPERTY_FILTER` per context property gives, in order, the concatenation of `?entity <pid> value. ` with the value embedded as given. An empty context gives `""`. |
| Filters.ContextFilterInert | src/main/java/org/deri/grefine/reconcile/rdf/factories/JenaTextSparqlQueryFactory.java:46-49 | A context filter built from inert property URIs and values holds no marker. |
| Filters.BuildLabelFilter | src/main/java/org/deri/grefine/reconcile/rdf/factories/JenaTextSparqlQueryFactory.java:164-172 | The loop that fills the list and joins it gives the label filter for the given URIs. |
| Filters.LabelFilterShape | src/main/java/org/deri/grefine/reconcile/rdf/factories/JenaTextSparqlQueryFactory.java:164-172 | The label filter is one `{?entity text:query (<p> '[[QUERY]]*' [[LIMIT]]) . ?entity <p> ?label . }` disjunct per property, in order, joined by ` UNION `. It is empty exactly when there are no properties. |
| Filters.LabelFilterText | src/main/java/org/deri/grefine/reconcile/rdf/factories/JenaTextSparqlQueryFactory.java:168-171 | The label filter text is the rendering of a skeleton whose only slots are `QUERY` and `LIMIT`. |
| Filters.LabelFilterWellFormed | src/main/java/org/deri/grefine/reconcile/rdf/factories/JenaTextSparqlQueryFactory.java:168-169 | For inert property URIs, the label filter's skeleton is well formed, and its slots are `QUERY` and `LIMIT`. |
| Chains.SingleChain | src/main/java/org/deri/grefine/reconcile/rdf/factories/JenaTextSparqlQueryFactory.java:72-79 | When the label slot receives a plain URI, the reconciliation replace chain renders one simultaneous substitution and leaves no marker. |
| Chains.FilterChain | src/main/java/org/deri/grefine/reconcile/rdf/factories/JenaTextSparqlQueryFactory.java:72-79 | When the label slot receives a filter that itself holds `QUERY` and `LIMIT` slots, the reconciliation chain substitutes that filter first. It then fills every query and limit slot, the filter's own included, and leaves no marker. |
| Chains.SearchChainFills | src/main/java/org/deri/grefine/reconcile/rdf/factories/JenaTextSparqlQueryFactory.java:132-136 | The entity-search replace chain substitutes the label filter first, then the query and limit values everywhere. It leaves no marker. |
| QueryFactory.ReconcileLimitText | src/main/java/org/deri/grefine/reconcile/rdf/factories/JenaTextSparqlQueryFactory.java:71 | The LIMIT text reads back as the requested limit for zero or one label property. It reads back as n times the limit for n properties when that fits in an int. |
| QueryFactory.FillReconcilePasses | src/main/java/org/deri/grefine/reconcile/rdf/factories/JenaTextSparqlQueryFactory.java:67-81 | The private composer's eight `replace` calls are the reconciliation chain run on the skeleton, with the escaped query, the filters and `max(n,1)*limit`. |
| QueryFactory.BuildContextFilter | src/main/java/org/deri/grefine/reconcile/rdf/factories/JenaTextSparqlQueryFactory.java:46-49 | The StringBuilder loop gives the context filter, one clause per context property, in order. |
| QueryFactory.GetReconciliationSparqlQuery | src/main/java/org/deri/grefine/reconcile/rdf/factories/JenaTextSparqlQueryFactory.java:39-57 | The public composer returns the reconciliation query of the request and the label properties. |
| QueryFactory.SingleReconciliationQuery | src/main/java/org/deri/grefine/reconcile/rdf/factories/JenaTextSparqlQueryFactory.java:50-52 | With exactly one label property, the query is the single-property skeleton, the one with `ORDER BY DESC(?score1)`. Every slot is filled at once: the escaped text, that URI, the filters and the request's own limit. No marker is left. |
| QueryFactory.MultiReconciliationQuery | src/main/java/org/deri/grefine/reconcile/rdf/factories/JenaTextSparqlQueryFactory.java:54-56 | With zero or several label properties, the query is the UNION skeleton with the label filter substituted. Then every query and limit slot is filled, the filter's own included, with the escaped text and `max(n,1)*limit`. No marker is left. |
| QueryFactory.MultiReconciliationChain | src/main/java/org/deri/grefine/reconcile/rdf/factories/JenaTextSparqlQueryFactory.java:54-56 | The multi-property path runs the reconciliation chain, with the label filter as the label slot's value. |
| SuggestQueries.TypeSuggestFills | src/main/java/org/deri/grefine/reconcile/rdf/factories/JenaTextSparqlQueryFactory.java:28-30 | For every search text and limit, the type-suggest composer does not throw. Its query is the skeleton with the escaped text and the limit in every slot, and no marker is left. |
| SuggestQueries.EscapedPrefixLiteral | src/main/java/org/deri/grefine/reconcile/rdf/factories/JenaTextSparqlQueryFactory.java:201 | For a search text with no line break, the escaped text in front of the skeleton's `*'` reads back as the Lucene-escaped text plus the wildcard. The literal ends at the skeleton's own quote. |
| SuggestQueries.UnquotedApostrophe | src/main/java/org/deri/grefine/reconcile/rdf/factories/JenaTextSparqlQueryFactory.java:85 | Lucene leaves `it's` unchanged. Placed unquoted before `*'`, it ends the literal after `it`. |
| SuggestQueries.PropertySuggestOfTypeUnquoted | src/main/java/org/deri/grefine/reconcile/rdf/factories/JenaTextSparqlQueryFactory.java:84-88 | As written, for text without `$`, the query slots receive the Lucene-escaped text without its string-literal quoting. The type URI and limit are filled, and no marker is left. |
| SuggestQueries.PropertySuggestOfTypeDollar | src/main/java/org/deri/grefine/reconcile/rdf/factories/JenaTextSparqlQueryFactory.java:85 | As written, the search text `$` makes the composer throw `IllegalArgumentException`. |
| SuggestQueries.PropertySuggestOfTypeGroupRef | src/main/java/org/deri/grefine/reconcile/rdf/factories/JenaTextSparqlQueryFactory.java:84 | As written, the search text `$1` makes the composer throw `IndexOutOfBoundsException`. |
| SuggestQueries.PropertySuggestOfTypeGroupZero | src/main/java/org/deri/grefine/reconcile/rdf/factories/JenaTextSparqlQueryFactory.java:84-86 | As written, the search text `$0` puts `[[QUERY]]` back in place: the query is the skeleton with only the limit and type URI passes applied. |
| SuggestQueries.PropertySuggestOfTypeFixedFills | src/main/java/org/deri/grefine/reconcile/rdf/factories/JenaTextSparqlQueryFactory.java:84-88 | Corrected, the query is the skeleton with the escaped text, the limit and the type URI in every slot, and no marker is left. |
| SuggestQueries.PropertySuggestOfTypeQuotedFixes | src/main/java/org/deri/grefine/reconcile/rdf/factories/JenaTextSparqlQueryFactory.java:85-87 | Passing the escaped text through `Matcher.quoteReplacement` before the same `replaceAll` calls never throws. It gives exactly the corrected query, for every input. |
| SuggestQueries.PropertySuggestRaw | src/main/java/org/deri/grefine/reconcile/rdf/factories/JenaTextSparqlQueryFactory.java:91-93 | As written, text with no `\` and no `$` goes into the query slots raw, neither Lucene-escaped nor quoted. The limit is filled, and no marker is left. |
| SuggestQueries.PropertySuggestBackslash | src/main/java/org/deri/grefine/reconcile/rdf/factories/JenaTextSparqlQueryFactory.java:92 | As written, the search text `\` makes the composer throw `IllegalArgumentException`. |
| SuggestQueries.PropertySuggestPlain | src/main/java/org/deri/grefine/reconcile/rdf/factories/JenaTextSparqlQueryFactory.java:92 | As written, for every search text without `\` or `$`, the composer equals two `String.replace` calls in a row. The limit pass also runs over the spliced search text, so a `[[LIMIT]]` in it receives the limit. |
| SuggestQueries.PropertySuggestFixedFills | src/main/java/org/deri/grefine/reconcile/rdf/factories/JenaTextSparqlQueryFactory.java:91-93 | Corrected, the query is the skeleton with the escaped text and the limit in every slot, and no marker is left. |
| SuggestQueries.SampleInstancesFills | src/main/java/org/deri/grefine/reconcile/rdf/factories/JenaTextSparqlQueryFactory.java:96-100 | With no label property, `get(0)` throws and no query is built. Otherwise the query is the skeleton with the type URI, the first property and the limit filled, and no marker is left. |
| SuggestQueries.GetEntitySearchSparqlQuery | src/main/java/org/deri/grefine/reconcile/rdf/factories/JenaTextSparqlQueryFactory.java:128-137 | The method, with its label-filter loop, returns the entity-search query of its inputs. |
| SuggestQueries.EntitySearchFills | src/main/java/org/deri/grefine/reconcile/rdf/factories/JenaTextSparqlQueryFactory.java:128-137 | The entity-search query is its skeleton with the label filter substituted. Then every query and limit slot, the filter's own included, gets the escaped text and `n*limit`. No marker is left. |
| SuggestQueries.EntitySearchLimitText | src/main/java/org/deri/grefine/reconcile/rdf/factories/JenaTextSparqlQueryFactory.java:131 | The entity-search LIMIT text reads back as n times the limit when that fits, and as 0 with no label property: there is no `max(n,1)`. |
| ResultWrapping.PreferredLabelRanks | src/main/java/org/deri/grefine/reconcile/rdf/factories/JenaTextSparqlQueryFactory.java:139-157 | `label1` when only `score1` is present or `score1 > score2`. `label2` when only `score2` is present or `score2 > score1`. `label2` on equal scores. `""` when neither score is present. |
| ResultWrapping.PreferredLabelSymmetric | src/main/java/org/deri/grefine/reconcile/rdf/factories/JenaTextSparqlQueryFactory.java:142-153 | Unless the scores are equal, exchanging the two (label, score) columns picks the same label. |
| ResultWrapping.PreferredLabelTieBreak | src/main/java/org/deri/grefine/reconcile/rdf/factories/JenaTextSparqlQueryFactory.java:146-150 | With equal scores and different labels, the answer is `label2`. Exchanging the columns changes it. |
| ResultWrapping.WrapRowsItems | src/main/java/org/deri/grefine/reconcile/rdf/factories/JenaTextSparqlQueryFactory.java:105-112 | Wrapping succeeds exactly when every row wraps. It then gives one item per row, in row order, with no deduplication: item i is row i's URI and preferred label. |
| ResultWrapping.WrapRowsFirstFailure | src/main/java/org/deri/grefine/reconcile/rdf/factories/JenaTextSparqlQueryFactory.java:105-112 | A row whose resource or chosen label is missing ends the wrapping with the exception of the first such row. |
| ResultWrapping.WrapTypeSuggestResultSet | src/main/java/org/deri/grefine/reconcile/rdf/factories/JenaTextSparqlQueryFactory.java:103-113 | The while loop returns the rows wrapped over `?type`. |
| ResultWrapping.WrapPropertySuggestResultSet | src/main/java/org/deri/grefine/reconcile/rdf/factories/JenaTextSparqlQueryFactory.java:115-125 | The while loop returns the rows wrapped over `?p`. |

## Left out

- `write(JSONWriter)` (lines 59-65) is JSON output through an external writer. It only writes the constant tag `"jena-text"`.
- `ScoredLabel` (lines 179-192) is never used by the factory.
- The class comment's note that the factory is not thread-safe (line 21): the model has no shared state.
- Lucene's `QueryParser.escape` is external code. It is modelled from its documented behaviour: a backslash before each of `\ + - ! ( ) : ^ [ ] " { } ~ * ? | & /`.
- The repository's own `org.deri.grefine.reconcile.util.StringUtils` is not part of this model. Its call sites are read as `join(items, separator, itemPrefix, start, end)`: `start`, then the items each preceded by `itemPrefix` and separated by `separator`, then `end`. This is the reading used by `Filters.TypeFilterShape` and `Filters.LabelFilterShape`.
- `PropertyContext`'s `asSparqlValue()` is external: each context value is taken as the SPARQL text it returns.
- ResultWrapping.WrapRow and the wrap methods hold only URIs in a row's resources. A blank node bound to `?type` or `?p` (lines 108 and 120) would make `getURI()` return null and give an item with a null id; that case is not modelled.
- Jena's `ResultSet`, `QuerySolution`, `Resource` and `Literal` become a sequence of rows with optional fields. A null literal or resource that would be dereferenced is a `Failure` value rather than a thrown `NullPointerException`.
- Scores are reals. Java doubles, NaN and rounding are not modelled; only the strict `>` comparison is used.
- `ResultWrapping.WrapTypeSuggestResultSet` and `ResultWrapping.WrapPropertySuggestResultSet` take the `prefix` and `limit` arguments and, like the source, ignore them.
- Whether the produced text is valid SPARQL, and what the store returns for it, is not modelled: the query engine and the text index are external.
- QueryFactory.SingleReconciliationQuery, QueryFactory.MultiReconciliationQuery, SuggestQueries.EntitySearchFills, SuggestQueries.SampleInstancesFills, Filters.ContextFilterShape, SuggestQueries.PropertySuggestOfTypeUnquoted and SuggestQueries.PropertySuggestOfTypeFixedFills hold only for inert values: type URIs, context URIs and values, and label property URIs with no `[[` that do not start with `[`. A value that holds a marker can be rewritten by a later replace call of the chain, and such values are not characterised.
- SuggestQueries.PropertySuggestOfTypeUnquoted describes the as-written query only for search texts without `$`. SuggestQueries.PropertySuggestOfTypeDollar shows the error case for one input.
- SuggestQueries.PropertySuggestRaw describes the as-written query only for search texts without `\` or `$` that are inert, with no `[[` and not starting with `[`. SuggestQueries.PropertySuggestPlain covers every text without `\` or `$`, including one holding a marker that the limit pass then rewrites. SuggestQueries.PropertySuggestBackslash shows the error case for one input.
- Escaping.LuceneRoundTrip states only that the backslash escaping can be undone. `QueryParser.escape` leaves whitespace and the words AND, OR and NOT as they are (Escaping.LuceneEscapeKeeps), and Lucene's query parser still reads them as clause separators and operators. How Lucene splits the text into clauses is not modelled.
- Escaping.EscapedQueryLiteral and SuggestQueries.EscapedPrefixLiteral hold only for search texts without a line feed or carriage return. `escapeQuery` leaves those raw, and Escaping.LineBreakUnreadable shows that the literal is then unreadable (see Findings).
- Where a general description of this component disagrees with the code, the model follows the code:
  - equal scores choose `label2`, not `label1`;
  - zero label properties are not rejected and take the UNION path, where the label filter is empty;
  - the wrap methods do not deduplicate;
  - escaping is not total in the property-suggest composers, and it does not make every text safe inside a literal (see Findings).

## Findings

| source | as written | input that shows it | evidently intended | confidence | as-written member | corrected member |
|---|---|---|---|---|---|---|
| src/main/java/org/deri/grefine/reconcile/rdf/factories/JenaTextSparqlQueryFactory.java:85 | The escaped search text is passed to `replaceAll` as the replacement string. Java then reads its backslashes as escapes, which removes the quoting `escapeQuery` added. A `$` followed by anything other than `0` throws, and `$0` puts the matched marker back. | `it's` gives `'it's*'`, and the literal ends after `it`. `$` throws `IllegalArgumentException`, `$1` throws `IndexOutOfBoundsException`, and `$0` leaves `[[QUERY]]` in the query. | The escaped text goes into the query as is, so the literal holds exactly the Lucene-escaped text (a literal `replace`, or `Matcher.quoteReplacement`). | not executed | SuggestQueries.PropertySuggestOfTypeUnquoted | SuggestQueries.PropertySuggestOfTypeFixedFills |
| src/main/java/org/deri/grefine/reconcile/rdf/factories/JenaTextSparqlQueryFactory.java:92 | The search text is not escaped at all and is passed to `replaceAll` as the replacement string. | `it's` ends the literal after `it`. `\` throws `IllegalArgumentException`. | The text is escaped by `escapeQuery` and substituted literally, like the other composers do. | not executed | SuggestQueries.PropertySuggestRaw | SuggestQueries.PropertySuggestFixedFills |
| src/main/java/org/deri/grefine/reconcile/rdf/factories/JenaTextSparqlQueryFactory.java:161 | The string-literal stage escapes `\` and `'` but leaves line feeds and carriage returns raw. A single-quoted SPARQL literal may not hold them. | A search text with a line break, such as a multi-line cell value `a` LF `b`: the literal of every composer that embeds it cannot be read. | Line breaks are written as the escapes `\n` and `\r`, so any search text reads back from its literal. | not executed | Escaping.LineBreakUnreadable | Escaping.EscapedQueryLiteralFixed |
