/** The chains of replace calls the query factory runs on its skeletons,
    with the placeholder names left as parameters, and what each chain
    computes: a simultaneous substitution of the skeleton's slots. */
module Chains {
  import opened Text
  import opened Templates

  /** The placeholders every reconciliation chain fills besides its label
      placeholder. */
  datatype Names = Names(query: string, typeFilter: string, contextFilter: string, limit: string)

  /** The texts the chain puts in their place. */
  datatype Values = Values(query: string, typeFilter: string, contextFilter: string, limit: string)

  function NameSet(ns: Names): set<string> {
    {ns.query, ns.typeFilter, ns.contextFilter, ns.limit}
  }

  /** Four different, valid placeholder names. */
  predicate NamesOk(ns: Names) {
    ValidName(ns.query) && ValidName(ns.typeFilter) && ValidName(ns.contextFilter) && ValidName(ns.limit)
    && ns.query != ns.typeFilter && ns.query != ns.contextFilter && ns.query != ns.limit
    && ns.typeFilter != ns.contextFilter && ns.typeFilter != ns.limit && ns.contextFilter != ns.limit
  }

  /** And a fifth, the label placeholder. */
  predicate Distinct(ns: Names, slot: string) {
    NamesOk(ns) && ValidName(slot)
    && slot != ns.query && slot != ns.typeFilter && slot != ns.contextFilter && slot != ns.limit
  }

  predicate ValuesInert(vs: Values) {
    Inert(vs.query) && Inert(vs.typeFilter) && Inert(vs.contextFilter) && Inert(vs.limit)
  }

  /** The substitution of the four shared placeholders. */
  function ValueEnv(ns: Names, vs: Values): map<string, Template> {
    map[ns.query := Filler(vs.query), ns.typeFilter := Filler(vs.typeFilter),
        ns.contextFilter := Filler(vs.contextFilter), ns.limit := Filler(vs.limit)]
  }

  // The reconciliation chain

  /** The query, the label placeholder twice, the query again, the type
      filter, the context filter and the limit twice. */
  function ReconcileChain(ns: Names, vs: Values, slot: string, labelValue: Template): seq<Pass> {
    LabelChain(ns, vs, slot, labelValue) + ValueChain(ns, vs)
  }

  /** The passes up to the label placeholder's second one. */
  function LabelChain(ns: Names, vs: Values, slot: string, labelValue: Template): seq<Pass> {
    [Pass(ns.query, Filler(vs.query)), Pass(slot, labelValue), Pass(slot, labelValue)]
  }

  /** The passes after it. */
  function ValueChain(ns: Names, vs: Values): seq<Pass> {
    [Pass(ns.query, Filler(vs.query)), Pass(ns.typeFilter, Filler(vs.typeFilter)),
     Pass(ns.contextFilter, Filler(vs.contextFilter)), Pass(ns.limit, Filler(vs.limit)),
     Pass(ns.limit, Filler(vs.limit))]
  }

  lemma ReconcileChainOk(ns: Names, vs: Values, slot: string, labelValue: Template)
    requires Distinct(ns, slot) && ValuesInert(vs) && Tidy(labelValue)
    ensures PassesOk(ReconcileChain(ns, vs, slot, labelValue))
  {
  }

  // What the chain gives each of its five names: the value of the first
  // pass of that name.

  lemma ChainQuery(ns: Names, vs: Values, slot: string, labelValue: Template)
    requires Distinct(ns, slot)
    ensures var e := EnvOf(ReconcileChain(ns, vs, slot, labelValue));
      ns.query in e && e[ns.query] == Filler(vs.query)
  {
    EnvOfFirst(ReconcileChain(ns, vs, slot, labelValue), 0);
  }

  lemma ChainLabel(ns: Names, vs: Values, slot: string, labelValue: Template)
    requires Distinct(ns, slot)
    ensures var e := EnvOf(ReconcileChain(ns, vs, slot, labelValue));
      slot in e && e[slot] == labelValue
  {
    var p := ReconcileChain(ns, vs, slot, labelValue);
    assert p[1] == Pass(slot, labelValue) && p[0].name == ns.query;
    EnvOfFirst(p, 1);
  }

  lemma ChainTypeFilter(ns: Names, vs: Values, slot: string, labelValue: Template)
    requires Distinct(ns, slot)
    ensures var e := EnvOf(ReconcileChain(ns, vs, slot, labelValue));
      ns.typeFilter in e && e[ns.typeFilter] == Filler(vs.typeFilter)
  {
    var p := ReconcileChain(ns, vs, slot, labelValue);
    assert p[4] == Pass(ns.typeFilter, Filler(vs.typeFilter));
    assert forall j :: 0 <= j < 4 ==> p[j].name in {ns.query, slot};
    EnvOfFirst(p, 4);
  }

  lemma ChainContextFilter(ns: Names, vs: Values, slot: string, labelValue: Template)
    requires Distinct(ns, slot)
    ensures var e := EnvOf(ReconcileChain(ns, vs, slot, labelValue));
      ns.contextFilter in e && e[ns.contextFilter] == Filler(vs.contextFilter)
  {
    var p := ReconcileChain(ns, vs, slot, labelValue);
    assert p[5] == Pass(ns.contextFilter, Filler(vs.contextFilter));
    assert forall j :: 0 <= j < 5 ==> p[j].name in {ns.query, slot, ns.typeFilter};
    EnvOfFirst(p, 5);
  }

  lemma ChainLimit(ns: Names, vs: Values, slot: string, labelValue: Template)
    requires Distinct(ns, slot)
    ensures var e := EnvOf(ReconcileChain(ns, vs, slot, labelValue));
      ns.limit in e && e[ns.limit] == Filler(vs.limit)
  {
    var p := ReconcileChain(ns, vs, slot, labelValue);
    assert p[6] == Pass(ns.limit, Filler(vs.limit));
    assert forall j :: 0 <= j < 6 ==> p[j].name in {ns.query, slot, ns.typeFilter, ns.contextFilter};
    EnvOfFirst(p, 6);
  }

  lemma SingleIndependent(ns: Names, vs: Values, slot: string, labelValue: Template)
    requires HolesIn(labelValue, {})
    ensures Independent(ReconcileChain(ns, vs, slot, labelValue))
  {
    ClosedIndependent(ReconcileChain(ns, vs, slot, labelValue));
  }

  /** With a closed label value the whole chain is one substitution. */
  lemma SingleStage(t: Template, ns: Names, vs: Values, slot: string, labelValue: Template)
    requires Distinct(ns, slot)
    requires HolesIn(t, NameSet(ns) + {slot})
    ensures Substitute(t, EnvOf(ReconcileChain(ns, vs, slot, labelValue)))
      == Substitute(t, ValueEnv(ns, vs)[slot := labelValue])
  {
    ChainQuery(ns, vs, slot, labelValue);
    ChainLabel(ns, vs, slot, labelValue);
    ChainTypeFilter(ns, vs, slot, labelValue);
    ChainContextFilter(ns, vs, slot, labelValue);
    ChainLimit(ns, vs, slot, labelValue);
    var e := EnvOf(ReconcileChain(ns, vs, slot, labelValue));
    var env := ValueEnv(ns, vs)[slot := labelValue];
    var names := NameSet(ns) + {slot};
    assert forall n :: n in names ==> n in e && n in env && e[n] == env[n];
    SubstituteAgree(t, e, env, names);
  }

  /** With one label property: every slot of the skeleton is filled at once
      and no placeholder is left. */
  lemma SingleChain(t: Template, ns: Names, vs: Values, slot: string, labelText: string)
    requires Distinct(ns, slot) && ValuesInert(vs) && Inert(labelText)
    requires WellFormed(t, NameSet(ns) + {slot})
    ensures var p := ReconcileChain(ns, vs, slot, Filler(labelText));
      ReplacePasses(Render(t), p) == Render(Substitute(t, ValueEnv(ns, vs)[slot := Filler(labelText)]))
      && Inert(ReplacePasses(Render(t), p))
  {
    var p := ReconcileChain(ns, vs, slot, Filler(labelText));
    var env := ValueEnv(ns, vs)[slot := Filler(labelText)];
    ReconcileChainOk(ns, vs, slot, Filler(labelText));
    SingleIndependent(ns, vs, slot, Filler(labelText));
    SingleStage(t, ns, vs, slot, Filler(labelText));
    ChainSubstitute(t, p, NameSet(ns) + {slot}, env);
  }

  // The chains as the replace calls the factory writes out

  /** One replace call. */
  function ApplyPass(s: string, p: Pass): string {
    ReplaceAll(s, Marker(p.name), Render(p.value))
  }

  lemma ReplacePassesCons(s: string, p: Pass, rest: seq<Pass>)
    ensures ReplacePasses(s, [p] + rest) == ReplacePasses(ApplyPass(s, p), rest)
  {
    assert ([p] + rest)[1..] == rest;
  }

  lemma ReplacePasses2(s: string, a: Pass, b: Pass)
    ensures ReplacePasses(s, [a, b]) == ApplyPass(ApplyPass(s, a), b)
  {
    ReplacePassesCons(s, a, [b]);
    ReplacePassesCons(ApplyPass(s, a), b, []);
  }

  lemma ReplacePasses3(s: string, a: Pass, b: Pass, c: Pass)
    ensures ReplacePasses(s, [a, b, c]) == ApplyPass(ApplyPass(ApplyPass(s, a), b), c)
  {
    ReplacePassesCons(s, a, [b, c]);
    ReplacePasses2(ApplyPass(s, a), b, c);
  }

  lemma ReplacePasses5(s: string, a: Pass, b: Pass, c: Pass, d: Pass, e: Pass)
    ensures ReplacePasses(s, [a, b, c, d, e])
      == ApplyPass(ApplyPass(ApplyPass(ApplyPass(ApplyPass(s, a), b), c), d), e)
  {
    ReplacePassesCons(s, a, [b, c, d, e]);
    ReplacePassesCons(ApplyPass(s, a), b, [c, d, e]);
    ReplacePasses3(ApplyPass(ApplyPass(s, a), b), c, d, e);
  }

  /** The reconciliation chain is the eight replace calls, in order. */
  lemma ReconcileChainText(s: string, ns: Names, vs: Values, slot: string, labelValue: Template)
    ensures ReplacePasses(s, ReconcileChain(ns, vs, slot, labelValue))
      == ReplaceAll(ReplaceAll(ReplaceAll(ReplaceAll(ReplaceAll(ReplaceAll(ReplaceAll(ReplaceAll(s,
           Marker(ns.query), vs.query), Marker(slot), Render(labelValue)), Marker(slot), Render(labelValue)),
           Marker(ns.query), vs.query), Marker(ns.typeFilter), vs.typeFilter),
           Marker(ns.contextFilter), vs.contextFilter), Marker(ns.limit), vs.limit), Marker(ns.limit), vs.limit)
  {
    var l := LabelChain(ns, vs, slot, labelValue);
    var v := ValueChain(ns, vs);
    ReplacePassesConcat(s, l, v);
    ReplacePasses3(s, l[0], l[1], l[2]);
    ReplacePasses5(ReplacePasses(s, l), v[0], v[1], v[2], v[3], v[4]);
  }

  /** The search chain is the five replace calls, in order. */
  lemma SearchChainText(s: string, query: string, limit: string, slot: string, escapedQuery: string,
      limitText: string, labelValue: Template)
    ensures ReplacePasses(s, SearchChain(query, limit, slot, escapedQuery, limitText, labelValue))
      == ReplaceAll(ReplaceAll(ReplaceAll(ReplaceAll(ReplaceAll(s,
           Marker(query), escapedQuery), Marker(slot), Render(labelValue)), Marker(query), escapedQuery),
           Marker(limit), limitText), Marker(limit), limitText)
  {
    var p := SearchChain(query, limit, slot, escapedQuery, limitText, labelValue);
    assert p == [p[0], p[1], p[2], p[3], p[4]];
    ReplacePasses5(s, p[0], p[1], p[2], p[3], p[4]);
  }

  // The reconciliation chain with a label filter: the filter brings query
  // and limit placeholders of its own, which the later passes fill.

  /** The first passes place the label value and nothing else, when the
      skeleton has no query placeholder of its own. */
  lemma LabelStage(t: Template, ns: Names, vs: Values, slot: string, labelValue: Template)
    requires Distinct(ns, slot) && NoSlotIn(labelValue, {slot})
    requires HolesIn(t, {slot, ns.typeFilter, ns.contextFilter, ns.limit})
    ensures FillPasses(t, LabelChain(ns, vs, slot, labelValue)) == Substitute(t, map[slot := labelValue])
  {
    var p := LabelChain(ns, vs, slot, labelValue);
    assert Independent(p);
    PassesSubstitute(t, p);
    EnvOfFirst(p, 1);
    EnvOfMissing(p, ns.typeFilter);
    EnvOfMissing(p, ns.contextFilter);
    EnvOfMissing(p, ns.limit);
    SubstituteAgree(t, EnvOf(p), map[slot := labelValue], {slot, ns.typeFilter, ns.contextFilter, ns.limit});
  }

  /** The later passes fill the four shared placeholders at once. */
  lemma ValueStage(t: Template, ns: Names, vs: Values)
    requires NamesOk(ns)
    requires HolesIn(t, NameSet(ns))
    ensures FillPasses(t, ValueChain(ns, vs)) == Substitute(t, ValueEnv(ns, vs))
  {
    var p := ValueChain(ns, vs);
    ClosedIndependent(p);
    PassesSubstitute(t, p);
    ValueChainEnv(ns, vs);
    SubstituteAgree(t, EnvOf(p), ValueEnv(ns, vs), NameSet(ns));
  }

  lemma ValueChainEnv(ns: Names, vs: Values)
    requires NamesOk(ns)
    ensures forall n :: n in NameSet(ns) ==>
      n in EnvOf(ValueChain(ns, vs)) && n in ValueEnv(ns, vs) && EnvOf(ValueChain(ns, vs))[n] == ValueEnv(ns, vs)[n]
  {
    var p := ValueChain(ns, vs);
    EnvOfFirst(p, 0);
    EnvOfFirst(p, 1);
    EnvOfFirst(p, 2);
    EnvOfFirst(p, 3);
  }

  /** With several label properties (or none): the label filter is put in
      its slot, then every query, type filter, context filter and limit
      slot, the label filter's own included, receives its value, and no
      placeholder is left. */
  lemma FilterChain(t: Template, ns: Names, vs: Values, slot: string, labelValue: Template)
    requires Distinct(ns, slot) && ValuesInert(vs)
    requires WellFormed(t, {slot, ns.typeFilter, ns.contextFilter, ns.limit})
    requires WellFormed(labelValue, {ns.query, ns.limit})
    ensures var p := ReconcileChain(ns, vs, slot, labelValue);
      ReplacePasses(Render(t), p)
        == Render(Substitute(Substitute(t, map[slot := labelValue]), ValueEnv(ns, vs)))
      && Inert(ReplacePasses(Render(t), p))
  {
    var p := ReconcileChain(ns, vs, slot, labelValue);
    ReconcileChainOk(ns, vs, slot, labelValue);
    PassesRender(t, p);
    FillPassesConcat(t, LabelChain(ns, vs, slot, labelValue), ValueChain(ns, vs));
    LabelStage(t, ns, vs, slot, labelValue);
    var x := Substitute(t, map[slot := labelValue]);
    SubstituteHolesIn(t, map[slot := labelValue], {slot, ns.typeFilter, ns.contextFilter, ns.limit},
      {ns.query, ns.limit});
    assert ({slot, ns.typeFilter, ns.contextFilter, ns.limit} - {slot}) + {ns.query, ns.limit} == NameSet(ns);
    ValueStage(x, ns, vs);
    SubstituteHolesIn(x, ValueEnv(ns, vs), NameSet(ns), {});
    assert (NameSet(ns) - ValueEnv(ns, vs).Keys) + {} == {};
    ClosedRenderInert(Substitute(x, ValueEnv(ns, vs)));
  }

  // The entity-search chain: the query, the label filter, the query again
  // and the limit twice.

  function SearchLabelChain(query: string, slot: string, escapedQuery: string, labelValue: Template): seq<Pass> {
    [Pass(query, Filler(escapedQuery)), Pass(slot, labelValue)]
  }

  function SearchValueChain(query: string, limit: string, escapedQuery: string, limitText: string): seq<Pass> {
    [Pass(query, Filler(escapedQuery)), Pass(limit, Filler(limitText)), Pass(limit, Filler(limitText))]
  }

  function SearchChain(query: string, limit: string, slot: string, escapedQuery: string, limitText: string,
      labelValue: Template): seq<Pass> {
    SearchLabelChain(query, slot, escapedQuery, labelValue) + SearchValueChain(query, limit, escapedQuery, limitText)
  }

  function SearchEnv(query: string, limit: string, escapedQuery: string, limitText: string): map<string, Template> {
    map[query := Filler(escapedQuery), limit := Filler(limitText)]
  }

  lemma SearchLabelEnv(query: string, limit: string, slot: string, escapedQuery: string, labelValue: Template)
    requires slot != query && query != limit && slot != limit
    ensures var e := EnvOf(SearchLabelChain(query, slot, escapedQuery, labelValue));
      slot in e && e[slot] == labelValue && limit !in e
  {
    var p := SearchLabelChain(query, slot, escapedQuery, labelValue);
    EnvOfFirst(p, 1);
    EnvOfMissing(p, limit);
  }

  /** The first two passes place the label value and nothing else, when the
      skeleton has no query placeholder of its own. */
  lemma SearchLabelStage(t: Template, query: string, limit: string, slot: string, escapedQuery: string,
      labelValue: Template)
    requires slot != query && query != limit && slot != limit
    requires HolesIn(t, {slot, limit})
    ensures FillPasses(t, SearchLabelChain(query, slot, escapedQuery, labelValue)) == Substitute(t, map[slot := labelValue])
  {
    var p := SearchLabelChain(query, slot, escapedQuery, labelValue);
    assert Independent(p);
    PassesSubstitute(t, p);
    SearchLabelEnv(query, limit, slot, escapedQuery, labelValue);
    SubstituteAgree(t, EnvOf(p), map[slot := labelValue], {slot, limit});
  }

  lemma SearchValueEnv(query: string, limit: string, escapedQuery: string, limitText: string)
    requires query != limit
    ensures var e := EnvOf(SearchValueChain(query, limit, escapedQuery, limitText));
      query in e && limit in e && e[query] == Filler(escapedQuery) && e[limit] == Filler(limitText)
  {
    var p := SearchValueChain(query, limit, escapedQuery, limitText);
    EnvOfFirst(p, 0);
    EnvOfFirst(p, 1);
  }

  /** The last three passes fill the query and limit placeholders at once. */
  lemma SearchValueStage(t: Template, query: string, limit: string, escapedQuery: string, limitText: string)
    requires query != limit && HolesIn(t, {query, limit})
    ensures FillPasses(t, SearchValueChain(query, limit, escapedQuery, limitText))
      == Substitute(t, SearchEnv(query, limit, escapedQuery, limitText))
  {
    var p := SearchValueChain(query, limit, escapedQuery, limitText);
    ClosedIndependent(p);
    PassesSubstitute(t, p);
    SearchValueEnv(query, limit, escapedQuery, limitText);
    SubstituteAgree(t, EnvOf(p), SearchEnv(query, limit, escapedQuery, limitText), {query, limit});
  }

  lemma SearchChainOk(query: string, limit: string, slot: string, escapedQuery: string, limitText: string,
      labelValue: Template)
    requires ValidName(query) && ValidName(limit) && ValidName(slot)
    requires Inert(escapedQuery) && Inert(limitText) && Tidy(labelValue)
    ensures PassesOk(SearchChain(query, limit, slot, escapedQuery, limitText, labelValue))
  {
  }

  /** The two stages one after the other. */
  lemma SearchStages(t: Template, query: string, limit: string, slot: string, escapedQuery: string,
      limitText: string, labelValue: Template)
    requires query != limit && slot != query && slot != limit
    requires HolesIn(t, {slot, limit}) && HolesIn(labelValue, {query, limit})
    ensures FillPasses(t, SearchChain(query, limit, slot, escapedQuery, limitText, labelValue))
      == Substitute(Substitute(t, map[slot := labelValue]), SearchEnv(query, limit, escapedQuery, limitText))
  {
    FillPassesConcat(t, SearchLabelChain(query, slot, escapedQuery, labelValue),
      SearchValueChain(query, limit, escapedQuery, limitText));
    SearchLabelStage(t, query, limit, slot, escapedQuery, labelValue);
    SubstituteHolesIn(t, map[slot := labelValue], {slot, limit}, {query, limit});
    assert ({slot, limit} - {slot}) + {query, limit} == {query, limit};
    SearchValueStage(Substitute(t, map[slot := labelValue]), query, limit, escapedQuery, limitText);
  }

  /** Nothing is left open after the two stages. */
  lemma SearchClosed(t: Template, query: string, limit: string, slot: string, escapedQuery: string,
      limitText: string, labelValue: Template)
    requires HolesIn(t, {slot, limit}) && HolesIn(labelValue, {query, limit})
    ensures HolesIn(Substitute(Substitute(t, map[slot := labelValue]), SearchEnv(query, limit, escapedQuery, limitText)), {})
  {
    var x := Substitute(t, map[slot := labelValue]);
    var env := SearchEnv(query, limit, escapedQuery, limitText);
    SubstituteHolesIn(t, map[slot := labelValue], {slot, limit}, {query, limit});
    assert ({slot, limit} - {slot}) + {query, limit} == {query, limit};
    SubstituteHolesIn(x, env, {query, limit}, {});
    assert ({query, limit} - env.Keys) + {} == {};
  }

  /** The label filter is put in its slot, then every query and limit slot,
      the label filter's own included, receives its value, and no
      placeholder is left. */
  lemma SearchChainFills(t: Template, query: string, limit: string, slot: string, escapedQuery: string,
      limitText: string, labelValue: Template)
    requires ValidName(query) && ValidName(limit) && ValidName(slot)
    requires query != limit && slot != query && slot != limit
    requires Inert(escapedQuery) && Inert(limitText)
    requires WellFormed(t, {slot, limit}) && WellFormed(labelValue, {query, limit})
    ensures ReplacePasses(Render(t), SearchChain(query, limit, slot, escapedQuery, limitText, labelValue))
      == Render(Substitute(Substitute(t, map[slot := labelValue]), SearchEnv(query, limit, escapedQuery, limitText)))
    ensures Inert(ReplacePasses(Render(t), SearchChain(query, limit, slot, escapedQuery, limitText, labelValue)))
  {
    var p := SearchChain(query, limit, slot, escapedQuery, limitText, labelValue);
    SearchChainOk(query, limit, slot, escapedQuery, limitText, labelValue);
    PassesRender(t, p);
    SearchStages(t, query, limit, slot, escapedQuery, limitText, labelValue);
    SearchClosed(t, query, limit, slot, escapedQuery, limitText, labelValue);
    ClosedRenderInert(FillPasses(t, p));
  }

  // Chains of two or three different placeholders with plain values

  function Chain2(a: string, x: string, b: string, y: string): seq<Pass> {
    [Pass(a, Filler(x)), Pass(b, Filler(y))]
  }

  function Env2(a: string, x: string, b: string, y: string): map<string, Template> {
    map[a := Filler(x), b := Filler(y)]
  }

  lemma Chain2Stage(t: Template, a: string, x: string, b: string, y: string)
    requires a != b && HolesIn(t, {a, b})
    ensures Independent(Chain2(a, x, b, y))
    ensures Substitute(t, EnvOf(Chain2(a, x, b, y))) == Substitute(t, Env2(a, x, b, y))
  {
    var p := Chain2(a, x, b, y);
    ClosedIndependent(p);
    EnvOfFirst(p, 0);
    EnvOfFirst(p, 1);
    SubstituteAgree(t, EnvOf(p), Env2(a, x, b, y), {a, b});
  }

  /** Two replace calls with different placeholders fill both at once. */
  lemma Chain2Fills(t: Template, a: string, x: string, b: string, y: string)
    requires ValidName(a) && ValidName(b) && a != b && Inert(x) && Inert(y)
    requires WellFormed(t, {a, b})
    ensures ReplacePasses(Render(t), Chain2(a, x, b, y)) == Render(Substitute(t, Env2(a, x, b, y)))
    ensures Inert(ReplacePasses(Render(t), Chain2(a, x, b, y)))
  {
    Chain2Stage(t, a, x, b, y);
    Env2Closed(a, x, b, y);
    Chain2Ok(a, x, b, y);
    ChainSubstitute(t, Chain2(a, x, b, y), {a, b}, Env2(a, x, b, y));
  }

  lemma Env2Closed(a: string, x: string, b: string, y: string)
    ensures forall n :: n in {a, b} ==> n in Env2(a, x, b, y) && HolesIn(Env2(a, x, b, y)[n], {})
  {
  }

  lemma Chain2Ok(a: string, x: string, b: string, y: string)
    requires ValidName(a) && ValidName(b) && Inert(x) && Inert(y)
    ensures PassesOk(Chain2(a, x, b, y))
  {
  }

  function Chain3(a: string, x: string, b: string, y: string, c: string, z: string): seq<Pass> {
    [Pass(a, Filler(x)), Pass(b, Filler(y)), Pass(c, Filler(z))]
  }

  function Env3(a: string, x: string, b: string, y: string, c: string, z: string): map<string, Template> {
    map[a := Filler(x), b := Filler(y), c := Filler(z)]
  }

  lemma Chain3Env(a: string, x: string, b: string, y: string, c: string, z: string)
    requires a != b && a != c && b != c
    ensures forall n :: n in {a, b, c} ==>
      n in EnvOf(Chain3(a, x, b, y, c, z)) && n in Env3(a, x, b, y, c, z) && EnvOf(Chain3(a, x, b, y, c, z))[n] == Env3(a, x, b, y, c, z)[n]
  {
    var p := Chain3(a, x, b, y, c, z);
    EnvOfFirst(p, 0);
    EnvOfFirst(p, 1);
    EnvOfFirst(p, 2);
  }

  lemma Env3Closed(a: string, x: string, b: string, y: string, c: string, z: string)
    ensures forall n :: n in {a, b, c} ==> n in Env3(a, x, b, y, c, z) && HolesIn(Env3(a, x, b, y, c, z)[n], {})
  {
  }

  lemma Chain3Ok(a: string, x: string, b: string, y: string, c: string, z: string)
    requires ValidName(a) && ValidName(b) && ValidName(c) && Inert(x) && Inert(y) && Inert(z)
    ensures PassesOk(Chain3(a, x, b, y, c, z))
  {
  }

  lemma Chain3Stage(t: Template, a: string, x: string, b: string, y: string, c: string, z: string)
    requires a != b && a != c && b != c && HolesIn(t, {a, b, c})
    ensures Independent(Chain3(a, x, b, y, c, z))
    ensures Substitute(t, EnvOf(Chain3(a, x, b, y, c, z))) == Substitute(t, Env3(a, x, b, y, c, z))
  {
    ClosedIndependent(Chain3(a, x, b, y, c, z));
    Chain3Env(a, x, b, y, c, z);
    SubstituteAgree(t, EnvOf(Chain3(a, x, b, y, c, z)), Env3(a, x, b, y, c, z), {a, b, c});
  }

  /** Three replace calls with different placeholders fill all three at once. */
  lemma Chain3Fills(t: Template, a: string, x: string, b: string, y: string, c: string, z: string)
    requires ValidName(a) && ValidName(b) && ValidName(c) && a != b && a != c && b != c
    requires Inert(x) && Inert(y) && Inert(z)
    requires WellFormed(t, {a, b, c})
    ensures ReplacePasses(Render(t), Chain3(a, x, b, y, c, z)) == Render(Substitute(t, Env3(a, x, b, y, c, z)))
    ensures Inert(ReplacePasses(Render(t), Chain3(a, x, b, y, c, z)))
  {
    Chain3Stage(t, a, x, b, y, c, z);
    Env3Closed(a, x, b, y, c, z);
    Chain3Ok(a, x, b, y, c, z);
    ChainSubstitute(t, Chain3(a, x, b, y, c, z), {a, b, c}, Env3(a, x, b, y, c, z));
  }
}
