/** JenaTextSparqlQueryFactory: the query texts it composes from its
    skeletons, and what each composed query is. A composed query is read
    against the skeleton it starts from: the chain of replace calls fills the
    skeleton's slots exactly as one simultaneous substitution would, every
    occurrence of a placeholder receives its value, and no placeholder is
    left over. These readings hold when the values handed in (type URIs,
    context properties and values, label property URIs) contain no "[["
    and do not start with '['; a value that does could be rewritten by a
    later replace call of the chain. */
module QueryFactory {
  import opened Wrappers
  import opened Text
  import opened Templates
  import opened Escaping
  import opened QueryTemplates
  import opened Filters
  import opened Chains

  /** What a reconciliation request carries into the query: the search text,
      the wanted types, the result limit and the context constraints. */
  datatype ReconciliationRequest =
    ReconciliationRequest(queryString: string, types: seq<string>, limit: int, context: seq<PropertyContext>)

  function Max(a: int, b: int): int {
    if a < b then b else a
  }

  /** The limit the reconciliation query asks for, `Math.max(n, 1) * limit`
      in Java int arithmetic: a query returns one answer per (entity, label)
      pair, so with n label properties up to n answers per entity. */
  function ReconcileLimit(n: int, limit: int): int
    requires IsInt32(n) && IsInt32(limit)
  {
    MulInt32(Max(n, 1), limit)
  }

  /** The LIMIT text reads back as the requested limit for at most one label
      property, and as n times the limit for n of them when that fits. */
  lemma ReconcileLimitText(n: nat, limit: int)
    requires IsInt32(n) && IsInt32(limit)
    ensures var s := DecimalString(ReconcileLimit(n, limit));
      (forall c :: c in s[1..] ==> IsDigit(c))
      && (n <= 1 ==> ParseDecimal(s) == limit)
      && (IsInt32(n * limit) ==> n >= 1 ==> ParseDecimal(s) == n * limit)
  {
    DecimalRoundTrip(ReconcileLimit(n, limit));
  }

  /** The private getReconciliationSparqlQuery: the search text escaped, the
      limit computed, then the chain of replace calls on the skeleton text. */
  function FillReconcileTemplate(queryTemplate: string, searchPropertyUris: seq<string>, query: string,
      typesFilter: string, contextFilter: string, labelPlaceHolder: string, labelFilter: string,
      limit: int): string
    requires labelPlaceHolder != []
    requires IsInt32(|searchPropertyUris|) && IsInt32(limit)
  {
    var escapedQuery := EscapeQuery(query);
    var calculatedLimit := DecimalString(ReconcileLimit(|searchPropertyUris|, limit));
    var s1 := ReplaceAll(queryTemplate, Marker(QueryName), escapedQuery);
    var s2 := ReplaceAll(s1, labelPlaceHolder, labelFilter);
    var s3 := ReplaceAll(s2, labelPlaceHolder, labelFilter);
    var s4 := ReplaceAll(s3, Marker(QueryName), escapedQuery);
    var s5 := ReplaceAll(s4, Marker(TypeFilterName), typesFilter);
    var s6 := ReplaceAll(s5, Marker(ContextFilterName), contextFilter);
    var s7 := ReplaceAll(s6, Marker(LimitName), calculatedLimit);
    ReplaceAll(s7, Marker(LimitName), calculatedLimit)
  }

  /** The placeholders of the reconciliation chain besides the label one. */
  const FactoryNames: Names := Names(QueryName, TypeFilterName, ContextFilterName, LimitName)

  /** The values the chain puts in them. */
  function ReconcileValues(query: string, uris: seq<string>, typesFilter: string, contextFilter: string,
      limit: int): Values
    requires IsInt32(|uris|) && IsInt32(limit)
  {
    Values(EscapeQuery(query), typesFilter, contextFilter, DecimalString(ReconcileLimit(|uris|, limit)))
  }

  /** The private getReconciliationSparqlQuery runs the reconciliation chain
      on the skeleton text. */
  lemma FillReconcilePasses(queryTemplate: string, uris: seq<string>, query: string, typesFilter: string,
      contextFilter: string, labelName: string, labelValue: Template, limit: int)
    requires labelName != [] && IsInt32(|uris|) && IsInt32(limit)
    ensures FillReconcileTemplate(queryTemplate, uris, query, typesFilter, contextFilter, Marker(labelName),
        Render(labelValue), limit)
      == ReplacePasses(queryTemplate, ReconcileChain(FactoryNames,
        ReconcileValues(query, uris, typesFilter, contextFilter, limit), labelName, labelValue))
  {
    ReconcileChainText(queryTemplate, FactoryNames, ReconcileValues(query, uris, typesFilter, contextFilter, limit),
      labelName, labelValue);
  }

  /** No value the request hands in can be mistaken for a placeholder. */
  predicate InertRequest(request: ReconciliationRequest) {
    (forall i :: 0 <= i < |request.types| ==> Inert(request.types[i]))
    && (forall i :: 0 <= i < |request.context| ==> Inert(request.context[i].pid) && Inert(request.context[i].value))
  }

  predicate InertUris(uris: seq<string>) {
    forall i :: 0 <= i < |uris| ==> Inert(uris[i])
  }

  /** The public getReconciliationSparqlQuery, as a function of its inputs. */
  function ReconciliationQuery(request: ReconciliationRequest, searchPropertyUris: seq<string>): string
    requires IsInt32(|searchPropertyUris|) && IsInt32(request.limit)
  {
    var typesFilter := TypeFilter(request.types);
    var contextFilter := ContextFilter(request.context);
    if |searchPropertyUris| == 1 then
      FillReconcileTemplate(Render(SingleReconcileTemplate), searchPropertyUris, request.queryString, typesFilter,
        contextFilter, Marker(LabelPropertyUriName), searchPropertyUris[0], request.limit)
    else
      FillReconcileTemplate(Render(ReconcileTemplate), searchPropertyUris, request.queryString, typesFilter,
        contextFilter, Marker(LabelPropertyFilterName), LabelFilter(searchPropertyUris), request.limit)
  }

  /** The context filter of getReconciliationSparqlQuery: PROPERTY_FILTER
      filled for each constraint and appended to a StringBuilder. */
  method BuildContextFilter(context: seq<PropertyContext>) returns (contextFilter: string)
    ensures contextFilter == ContextFilter(context)
  {
    contextFilter := "";
    for i := 0 to |context|
      invariant contextFilter == ContextFilter(context[..i])
    {
      assert context[..i + 1][..i] == context[..i];
      contextFilter := contextFilter + ContextClause(context[i]);
    }
    assert context[..|context|] == context;
  }

  /** The public getReconciliationSparqlQuery: the type filter joined when
      there are types, the context filter built clause by clause, then the
      single-property or the multi-property skeleton filled. */
  method GetReconciliationSparqlQuery(request: ReconciliationRequest, searchPropertyUris: seq<string>)
      returns (query: string)
    requires IsInt32(|searchPropertyUris|) && IsInt32(request.limit)
    ensures query == ReconciliationQuery(request, searchPropertyUris)
  {
    var typesFilter := "";
    if |request.types| > 0 {
      typesFilter := TypeFilter(request.types);
    }
    assert typesFilter == TypeFilter(request.types) by {
      TypeFilterShape(request.types);
    }
    var contextFilter := BuildContextFilter(request.context);
    if |searchPropertyUris| == 1 {
      query := FillReconcileTemplate(Render(SingleReconcileTemplate), searchPropertyUris, request.queryString,
        typesFilter, contextFilter, Marker(LabelPropertyUriName), searchPropertyUris[0], request.limit);
      return;
    }
    var labelFilter := BuildLabelFilter(searchPropertyUris);
    query := FillReconcileTemplate(Render(ReconcileTemplate), searchPropertyUris, request.queryString,
      typesFilter, contextFilter, Marker(LabelPropertyFilterName), labelFilter, request.limit);
  }

  /** The names of the reconciliation chain are valid and all different,
      and they are the slots of the two reconciliation skeletons. */
  lemma FactoryNamesDistinct()
    ensures Distinct(FactoryNames, LabelPropertyUriName) && Distinct(FactoryNames, LabelPropertyFilterName)
    ensures NameSet(FactoryNames) + {LabelPropertyUriName}
      == {LabelPropertyUriName, QueryName, LimitName, TypeFilterName, ContextFilterName}
  {
    FactoryNamesOk();
    assert ValidName(LabelPropertyUriName) && ValidName(LabelPropertyFilterName);
    assert |QueryName| == 5 && |LimitName| == 5 && |TypeFilterName| == 11 && |ContextFilterName| == 14;
    assert |LabelPropertyUriName| == 18 && |LabelPropertyFilterName| == 21;
  }

  lemma FactoryNamesOk()
    ensures NamesOk(FactoryNames)
  {
    assert ValidName(QueryName) && ValidName(LimitName) && ValidName(TypeFilterName) && ValidName(ContextFilterName);
    assert QueryName[0] != LimitName[0];
    assert |QueryName| == 5 && |LimitName| == 5 && |TypeFilterName| == 11 && |ContextFilterName| == 14;
  }

  /** The values of a request are inert. */
  lemma ReconcileValuesInert(request: ReconciliationRequest, uris: seq<string>)
    requires IsInt32(|uris|) && IsInt32(request.limit) && InertRequest(request)
    ensures ValuesInert(ReconcileValues(request.queryString, uris, TypeFilter(request.types),
      ContextFilter(request.context), request.limit))
  {
    EscapeQueryInert(request.queryString);
    TypeFilterInert(request.types);
    ContextFilterInert(request.context);
    LimitTextInert(ReconcileLimit(|uris|, request.limit));
  }

  /** With one label property, the query is the single-property skeleton
      with every slot filled at once: the escaped search text, the property
      URI, the type and context filters and the request's own limit. No
      placeholder is left in it. */
  lemma SingleReconciliationQuery(request: ReconciliationRequest, uri: string)
    requires IsInt32(request.limit) && InertRequest(request) && Inert(uri)
    ensures ReconciliationQuery(request, [uri])
      == Render(Substitute(SingleReconcileTemplate,
          ValueEnv(FactoryNames, Values(EscapeQuery(request.queryString), TypeFilter(request.types),
            ContextFilter(request.context), DecimalString(request.limit)))[LabelPropertyUriName := Filler(uri)]))
    ensures Inert(ReconciliationQuery(request, [uri]))
  {
    var vs := ReconcileValues(request.queryString, [uri], TypeFilter(request.types), ContextFilter(request.context),
      request.limit);
    assert ReconcileLimit(|[uri]|, request.limit) == request.limit;
    FillReconcilePasses(Render(SingleReconcileTemplate), [uri], request.queryString, TypeFilter(request.types),
      ContextFilter(request.context), LabelPropertyUriName, Filler(uri), request.limit);
    FactoryNamesDistinct();
    SingleReconcileWellFormed();
    ReconcileValuesInert(request, [uri]);
    SingleChain(SingleReconcileTemplate, FactoryNames, vs, LabelPropertyUriName, uri);
  }

  /** With no label property or several, the label filter goes into its
      slot first; then every query, type filter, context filter and limit
      slot, the label filter's own included, receives its value, the limit
      being the request's limit times the number of label properties. No
      placeholder is left in the query. */
  lemma MultiReconciliationQuery(request: ReconciliationRequest, uris: seq<string>)
    requires |uris| != 1 && IsInt32(|uris|) && IsInt32(request.limit)
    requires InertRequest(request) && InertUris(uris)
    ensures ReconciliationQuery(request, uris)
      == Render(Substitute(Substitute(ReconcileTemplate, map[LabelPropertyFilterName := LabelFilterTemplate(uris)]),
          ValueEnv(FactoryNames, Values(EscapeQuery(request.queryString), TypeFilter(request.types),
            ContextFilter(request.context), DecimalString(ReconcileLimit(|uris|, request.limit))))))
    ensures Inert(ReconciliationQuery(request, uris))
  {
    var vs := ReconcileValues(request.queryString, uris, TypeFilter(request.types), ContextFilter(request.context),
      request.limit);
    MultiReconciliationReady(request, uris);
    FilterChain(ReconcileTemplate, FactoryNames, vs, LabelPropertyFilterName, LabelFilterTemplate(uris));
    MultiReconciliationChain(request, uris);
  }

  /** What the multi-property chain needs of its skeleton, names and values. */
  lemma MultiReconciliationReady(request: ReconciliationRequest, uris: seq<string>)
    requires IsInt32(|uris|) && IsInt32(request.limit) && InertRequest(request) && InertUris(uris)
    ensures Distinct(FactoryNames, LabelPropertyFilterName)
    ensures ValuesInert(ReconcileValues(request.queryString, uris, TypeFilter(request.types),
      ContextFilter(request.context), request.limit))
    ensures WellFormed(ReconcileTemplate, {LabelPropertyFilterName, TypeFilterName, ContextFilterName, LimitName})
    ensures WellFormed(LabelFilterTemplate(uris), {QueryName, LimitName})
  {
    FactoryNamesDistinct();
    ReconcileWellFormed();
    LabelFilterWellFormed(uris);
    ReconcileValuesInert(request, uris);
  }

  /** With no label property or several, the public method runs the
      reconciliation chain with the label filter on the multi-property
      skeleton. */
  lemma MultiReconciliationChain(request: ReconciliationRequest, uris: seq<string>)
    requires |uris| != 1 && IsInt32(|uris|) && IsInt32(request.limit)
    ensures ReconciliationQuery(request, uris)
      == ReplacePasses(Render(ReconcileTemplate), ReconcileChain(FactoryNames,
        ReconcileValues(request.queryString, uris, TypeFilter(request.types), ContextFilter(request.context),
          request.limit), LabelPropertyFilterName, LabelFilterTemplate(uris)))
  {
    LabelFilterText(uris);
    FillReconcilePasses(Render(ReconcileTemplate), uris, request.queryString, TypeFilter(request.types),
      ContextFilter(request.context), LabelPropertyFilterName, LabelFilterTemplate(uris), request.limit);
  }

  /** The decimal text of a limit holds no '['. */
  lemma LimitTextInert(limit: int)
    ensures Inert(DecimalString(limit))
  {
    var s := DecimalString(limit);
    assert s[0] != '[' by {
      assert s[0] in s;
    }
    forall i | 0 < i < |s| ensures !(s[i - 1] == '[' && s[i] == '[') {
      assert s[i] in s;
    }
  }
}
