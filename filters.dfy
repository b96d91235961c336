/** The three filters a reconciliation or entity-search query is assembled
    from: the type filter, the context filter and the label filter. */
module Filters {
  import opened Text
  import opened Templates
  import opened QueryTemplates

  /** `blocks` separated by " UNION ", described from the last block back. */
  function UnionOf(blocks: seq<string>): string
    decreases |blocks|
  {
    if |blocks| == 0 then ""
    else if |blocks| == 1 then blocks[0]
    else UnionOf(blocks[..|blocks| - 1]) + " UNION " + blocks[|blocks| - 1]
  }

  /** UnionOf seen from the first block. */
  lemma {:induction false} UnionOfCons(b: string, bs: seq<string>)
    requires bs != []
    ensures UnionOf([b] + bs) == b + " UNION " + UnionOf(bs)
    decreases |bs|
  {
    var all := [b] + bs;
    if |bs| > 1 {
      assert all[..|all| - 1] == [b] + bs[..|bs| - 1];
      UnionOfCons(b, bs[..|bs| - 1]);
    } else {
      assert all[..|all| - 1] == [b];
    }
  }

  // The type filter

  /** One type restriction of the type filter. */
  function TypeBlock(t: string): string {
    "{?entity rdf:type <" + t + ">. }"
  }

  function TypeBlocks(types: seq<string>): (r: seq<string>)
    ensures |r| == |types|
    ensures forall i :: 0 <= i < |types| ==> r[i] == TypeBlock(types[i])
    decreases |types|
  {
    if types == [] then [] else [TypeBlock(types[0])] + TypeBlocks(types[1..])
  }

  /** The type filter as the factory builds it: empty without types, else a
      join of the type URIs between fixed separators. */
  function TypeFilter(types: seq<string>): string {
    if |types| > 0 then Join(types, ">. } UNION ", "{?entity rdf:type <", " {", ">. }}") else ""
  }

  lemma {:induction false} TypeInterleave(types: seq<string>)
    requires types != []
    ensures Interleave(types, ">. } UNION ", "{?entity rdf:type <") + ">. }" == UnionOf(TypeBlocks(types))
    decreases |types|
  {
    var sep := ">. } UNION ";
    var pre := "{?entity rdf:type <";
    if |types| > 1 {
      TypeInterleave(types[1..]);
      assert TypeBlocks(types) == [TypeBlock(types[0])] + TypeBlocks(types[1..]);
      UnionOfCons(TypeBlock(types[0]), TypeBlocks(types[1..]));
      TypeStep(types[0], Interleave(types[1..], sep, pre));
    } else {
      assert TypeBlocks(types) == [TypeBlock(types[0])];
    }
  }

  lemma TypeStep(t: string, rest: string)
    ensures "{?entity rdf:type <" + t + ">. } UNION " + rest + ">. }"
      == TypeBlock(t) + " UNION " + (rest + ">. }")
  {
    var head := "{?entity rdf:type <" + t;
    assert ">. } UNION " == ">. }" + " UNION ";
    Assoc(head + ">. } UNION ", rest, ">. }");
    Assoc(head, ">. }", " UNION ");
  }

  /** The type filter is empty exactly when there are no types; otherwise it
      is a group of one block per type, in order, joined by " UNION ". */
  lemma TypeFilterShape(types: seq<string>)
    ensures TypeFilter(types) == "" <==> types == []
    ensures types != [] ==> TypeFilter(types) == " {" + UnionOf(TypeBlocks(types)) + "}"
  {
    if types != [] {
      TypeInterleave(types);
      var body := Interleave(types, ">. } UNION ", "{?entity rdf:type <");
      assert TypeFilter(types) == " {" + (body + ">. }") + "}";
    }
  }
  /** A group of inert blocks is inert. */
  lemma {:induction false} UnionOfInert(blocks: seq<string>)
    requires forall i :: 0 <= i < |blocks| ==> Inert(blocks[i])
    ensures Inert(UnionOf(blocks))
    decreases |blocks|
  {
    if |blocks| > 1 {
      var init := blocks[..|blocks| - 1];
      UnionOfInert(init);
      UnionSeparatorInert();
      InertAppend(UnionOf(init), " UNION ");
      InertAppend(UnionOf(init) + " UNION ", blocks[|blocks| - 1]);
    } else if |blocks| == 0 {
      assert UnionOf(blocks) == [];
    }
  }

  lemma UnionSeparatorInert()
    ensures Inert(" UNION ")
  {
  }

  lemma TypeBlockInert(t: string)
    requires Inert(t)
    ensures Inert(TypeBlock(t))
  {
    assert Inert("{?entity rdf:type <") && Inert(">. }");
    InertAppend("{?entity rdf:type <", t);
    InertAppend("{?entity rdf:type <" + t, ">. }");
  }

  /** With inert type URIs, the type filter cannot be mistaken for a marker. */
  lemma TypeFilterInert(types: seq<string>)
    requires forall i :: 0 <= i < |types| ==> Inert(types[i])
    ensures Inert(TypeFilter(types))
  {
    TypeFilterShape(types);
    if types != [] {
      var blocks := TypeBlocks(types);
      forall i | 0 <= i < |blocks| ensures Inert(blocks[i]) {
        TypeBlockInert(types[i]);
      }
      UnionOfInert(blocks);
      assert Inert(" {") && Inert("}");
      InertAppend(" {", UnionOf(blocks));
      InertAppend(" {" + UnionOf(blocks), "}");
    }
  }

  // The context filter

  /** A property constraint of the request context: the property URI and the
      value already written as a SPARQL term (PropertyContext.getV().asSparqlValue()). */
  datatype PropertyContext = PropertyContext(pid: string, value: string)

  /** One clause of the context filter: PROPERTY_FILTER with its property and
      then its value replaced. */
  function ContextClause(c: PropertyContext): string {
    ReplaceAll(ReplaceAll(Render(PropertyFilterTemplate), Marker(PropertyUriName), c.pid),
      Marker(ValueName), c.value)
  }

  /** The clauses appended in context order. */
  function ContextFilter(ctx: seq<PropertyContext>): string
    decreases |ctx|
  {
    if ctx == [] then "" else ContextFilter(ctx[..|ctx| - 1]) + ContextClause(ctx[|ctx| - 1])
  }

  /** The triple pattern a context constraint stands for. */
  function ClauseText(c: PropertyContext): string {
    "?entity <" + c.pid + "> " + c.value + ". "
  }

  /** Reference reading of the context filter: one triple pattern per
      constraint, first to last. */
  function ContextText(ctx: seq<PropertyContext>): string
    decreases |ctx|
  {
    if ctx == [] then "" else ClauseText(ctx[0]) + ContextText(ctx[1..])
  }

  function FilledPropertyFilter(c: PropertyContext): Template {
    Fill(Fill(PropertyFilterTemplate, PropertyUriName, Filler(c.pid)), ValueName, Filler(c.value))
  }

  lemma FilledPropertyFilterText(c: PropertyContext)
    ensures Render(FilledPropertyFilter(c)) == ClauseText(c)
  {
    var p := PropertyFilterTemplate;
    FillOf5(p[0], p[1], p[2], p[3], p[4], PropertyUriName, Filler(c.pid));
    var a := [Lit("?entity <"), Lit(c.pid), Lit("> "), ValueHole, Lit(". ")];
    assert Fill(p, PropertyUriName, Filler(c.pid)) == a;
    FillOf5(a[0], a[1], a[2], a[3], a[4], ValueName, Filler(c.value));
    var b := [Lit("?entity <"), Lit(c.pid), Lit("> "), Lit(c.value), Lit(". ")];
    assert Fill(a, ValueName, Filler(c.value)) == b;
    RenderOf5(b[0], b[1], b[2], b[3], b[4]);
  }

  /** A clause is the triple pattern `?entity <pid> value. `, the value
      embedded as given, as long as the property URI holds no marker. */
  lemma ContextClauseShape(c: PropertyContext)
    requires Inert(c.pid)
    ensures ContextClause(c) == ClauseText(c)
  {
    var t1 := Fill(PropertyFilterTemplate, PropertyUriName, Filler(c.pid));
    FillRender(PropertyFilterTemplate, PropertyUriName, Filler(c.pid));
    FillTidy(PropertyFilterTemplate, PropertyUriName, Filler(c.pid));
    FillRender(t1, ValueName, Filler(c.value));
    FilledPropertyFilterText(c);
  }

  lemma {:induction false} ContextTextAppend(ctx: seq<PropertyContext>, c: PropertyContext)
    ensures ContextText(ctx + [c]) == ContextText(ctx) + ClauseText(c)
    decreases |ctx|
  {
    if ctx == [] {
      assert ctx + [c] == [c];
      assert [c][1..] == [];
    } else {
      assert (ctx + [c])[1..] == ctx[1..] + [c];
      ContextTextAppend(ctx[1..], c);
      Assoc(ClauseText(ctx[0]), ContextText(ctx[1..]), ClauseText(c));
    }
  }

  /** The context filter is the in-order concatenation of one triple pattern
      per constraint, and empty for an empty context. */
  lemma {:induction false} ContextFilterShape(ctx: seq<PropertyContext>)
    requires forall i :: 0 <= i < |ctx| ==> Inert(ctx[i].pid)
    ensures ContextFilter(ctx) == ContextText(ctx)
    decreases |ctx|
  {
    if ctx != [] {
      var init := ctx[..|ctx| - 1];
      var last := ctx[|ctx| - 1];
      ContextFilterShape(init);
      ContextClauseShape(last);
      assert init + [last] == ctx;
      ContextTextAppend(init, last);
    }
  }

  lemma ClauseTextInert(c: PropertyContext)
    requires Inert(c.pid) && Inert(c.value)
    ensures Inert(ClauseText(c))
  {
    assert Inert("?entity <") && Inert("> ") && Inert(". ");
    InertAppend("?entity <", c.pid);
    InertAppend("?entity <" + c.pid, "> ");
    InertAppend("?entity <" + c.pid + "> ", c.value);
    InertAppend("?entity <" + c.pid + "> " + c.value, ". ");
  }

  /** With inert property URIs and values, the context filter cannot be
      mistaken for a marker. */
  lemma {:induction false} ContextFilterInert(ctx: seq<PropertyContext>)
    requires forall i :: 0 <= i < |ctx| ==> Inert(ctx[i].pid) && Inert(ctx[i].value)
    ensures Inert(ContextFilter(ctx))
    decreases |ctx|
  {
    if ctx != [] {
      var last := ctx[|ctx| - 1];
      ContextFilterInert(ctx[..|ctx| - 1]);
      ContextClauseShape(last);
      ClauseTextInert(last);
      InertAppend(ContextFilter(ctx[..|ctx| - 1]), ContextClause(last));
    }
  }

  // The label filter

  /** The text:query disjunct for one label property. */
  function LabelDisjunct(uri: string): string {
    "{?entity text:query (<" + uri + "> '[[QUERY]]*' [[LIMIT]]) . " + "?entity <" + uri + "> ?label . }"
  }

  function LabelDisjuncts(uris: seq<string>): (r: seq<string>)
    ensures |r| == |uris|
    ensures forall i :: 0 <= i < |uris| ==> r[i] == LabelDisjunct(uris[i])
    decreases |uris|
  {
    if uris == [] then [] else LabelDisjuncts(uris[..|uris| - 1]) + [LabelDisjunct(uris[|uris| - 1])]
  }

  /** The label filter as the factory joins it. */
  function LabelFilter(uris: seq<string>): string {
    Join(LabelDisjuncts(uris), " UNION ", "", "", "")
  }

  /** buildLabelFilter: one disjunct per label property, collected in a list
      and joined. */
  method BuildLabelFilter(uris: seq<string>) returns (r: string)
    ensures r == LabelFilter(uris)
  {
    var propertyTextQueries: seq<string> := [];
    for i := 0 to |uris|
      invariant |propertyTextQueries| == i
      invariant forall k :: 0 <= k < i ==> propertyTextQueries[k] == LabelDisjunct(uris[k])
    {
      propertyTextQueries := propertyTextQueries + [LabelDisjunct(uris[i])];
    }
    assert propertyTextQueries == LabelDisjuncts(uris);
    r := Join(propertyTextQueries, " UNION ", "", "", "");
  }

  lemma {:induction false} InterleaveUnion(items: seq<string>)
    ensures Interleave(items, " UNION ", "") == UnionOf(items)
    decreases |items|
  {
    if |items| > 1 {
      InterleaveUnion(items[1..]);
      assert items == [items[0]] + items[1..];
      UnionOfCons(items[0], items[1..]);
      assert "" + items[0] == items[0];
    } else if |items| == 1 {
      assert "" + items[0] == items[0];
    }
  }

  /** The label filter holds one disjunct per label property, in order,
      joined by " UNION "; it is empty exactly when there is none. */
  lemma LabelFilterShape(uris: seq<string>)
    ensures LabelFilter(uris) == UnionOf(LabelDisjuncts(uris))
    ensures LabelFilter(uris) == "" <==> uris == []
  {
    var items := LabelDisjuncts(uris);
    InterleaveUnion(items);
    JoinBare(items, " UNION ");
    if uris != [] {
      LabelDisjunctNonEmpty(uris[0]);
      UnionOfNonEmpty(items);
    }
  }

  /** A join with no item prefix, start or end is the bare interleaving. */
  lemma JoinBare(items: seq<string>, sep: string)
    ensures Join(items, sep, "", "", "") == Interleave(items, sep, "")
  {
    assert Join(items, sep, "", "", "") == "" + Interleave(items, sep, "") + "";
  }

  lemma LabelDisjunctNonEmpty(uri: string)
    ensures LabelDisjunct(uri) != []
  {
    assert LabelDisjunct(uri)[0] == '{';
  }

  lemma {:induction false} UnionOfNonEmpty(blocks: seq<string>)
    requires blocks != [] && blocks[0] != []
    ensures UnionOf(blocks) != []
    decreases |blocks|
  {
    if |blocks| > 1 {
      UnionOfNonEmpty(blocks[..|blocks| - 1]);
    }
  }

  /** The label filter's disjunct as a template: its two placeholders are
      slots, the property URI is part of the text. */
  function DisjunctTemplate(uri: string): Template {
    [Lit("{?entity text:query (<" + uri + "> '"), QueryHole, Lit("*' "), LimitHole,
     Lit(") . ?entity <" + uri + "> ?label . }")]
  }

  function LabelFilterTemplate(uris: seq<string>): Template
    decreases |uris|
  {
    if |uris| == 0 then []
    else if |uris| == 1 then DisjunctTemplate(uris[0])
    else LabelFilterTemplate(uris[..|uris| - 1]) + [Lit(" UNION ")] + DisjunctTemplate(uris[|uris| - 1])
  }

  lemma DisjunctText(uri: string)
    ensures Render(DisjunctTemplate(uri)) == LabelDisjunct(uri)
  {
    var a := "{?entity text:query (<" + uri + "> '";
    var e := ") . ?entity <" + uri + "> ?label . }";
    DisjunctRender(a, e);
    DisjunctLiterals();
    DisjunctPieces(uri, "{?entity text:query (<", "> '", "[[QUERY]]", "*' ", "[[LIMIT]]",
      ") . ", "?entity <", "> ?label . }");
  }

  lemma DisjunctRender(a: string, e: string)
    ensures Render([Lit(a), QueryHole, Lit("*' "), LimitHole, Lit(e)])
      == a + ("[[QUERY]]" + ("*' " + ("[[LIMIT]]" + e)))
  {
    RenderOf5(Lit(a), QueryHole, Lit("*' "), LimitHole, Lit(e));
    MarkersOfDisjunct();
  }

  lemma MarkersOfDisjunct()
    ensures Marker(QueryName) == "[[QUERY]]" && Marker(LimitName) == "[[LIMIT]]"
  {
  }

  lemma DisjunctLiterals()
    ensures "> '" + "[[QUERY]]" + "*' " + "[[LIMIT]]" + ") . " == "> '[[QUERY]]*' [[LIMIT]]) . "
    ensures ") . " + "?entity <" == ") . ?entity <"
  {
  }

  lemma DisjunctPieces(u: string, a: string, b: string, q: string, c: string, l: string,
                       d: string, e: string, f: string)
    ensures (a + u + b) + (q + (c + (l + ((d + e) + u + f)))) == a + u + (b + q + c + l + d) + (e + u + f)
  {
  }

  /** The label filter template renders to the label filter. */
  lemma {:induction false} LabelFilterText(uris: seq<string>)
    ensures Render(LabelFilterTemplate(uris)) == LabelFilter(uris)
    decreases |uris|
  {
    LabelFilterShape(uris);
    LabelFilterUnion(uris);
  }

  lemma {:induction false} LabelFilterUnion(uris: seq<string>)
    ensures Render(LabelFilterTemplate(uris)) == UnionOf(LabelDisjuncts(uris))
    decreases |uris|
  {
    if |uris| == 1 {
      DisjunctText(uris[0]);
    } else if |uris| > 1 {
      var init := uris[..|uris| - 1];
      var last := uris[|uris| - 1];
      LabelFilterUnion(init);
      DisjunctText(last);
      RenderAround(LabelFilterTemplate(init), " UNION ", DisjunctTemplate(last));
      assert LabelDisjuncts(uris)[..|uris| - 1] == LabelDisjuncts(init);
    }
  }

  lemma DisjunctWellFormed(uri: string)
    requires Inert(uri)
    ensures WellFormed(DisjunctTemplate(uri), {QueryName, LimitName})
  {
    var a := "{?entity text:query (<";
    var b := "> '";
    var e := ") . ?entity <";
    var f := "> ?label . }";
    assert Inert(a) && Inert(b) && Inert(e) && Inert(f) && Inert("*' ");
    InertAppend(a, uri);
    InertAppend(a + uri, b);
    InertAppend(e, uri);
    InertAppend(e + uri, f);
    DisjunctSlots(a + uri + b, e + uri + f);
  }

  lemma DisjunctSlots(a: string, e: string)
    requires Inert(a) && Inert(e)
    ensures WellFormed([Lit(a), QueryHole, Lit("*' "), LimitHole, Lit(e)], {QueryName, LimitName})
  {
    assert Inert("*' ");
  }

  /** With inert label property URIs, the label filter template is tidy and
      its only slots are QUERY and LIMIT. */
  lemma {:induction false} LabelFilterWellFormed(uris: seq<string>)
    requires forall i :: 0 <= i < |uris| ==> Inert(uris[i])
    ensures WellFormed(LabelFilterTemplate(uris), {QueryName, LimitName})
    decreases |uris|
  {
    if |uris| == 1 {
      DisjunctWellFormed(uris[0]);
    } else if |uris| > 1 {
      var init := uris[..|uris| - 1];
      var ql := {QueryName, LimitName};
      LabelFilterWellFormed(init);
      DisjunctWellFormed(uris[|uris| - 1]);
      UnionSeparatorInert();
      assert WellFormed([Lit(" UNION ")], ql);
      WellFormedAppend(LabelFilterTemplate(init), [Lit(" UNION ")], ql);
      WellFormedAppend(LabelFilterTemplate(init) + [Lit(" UNION ")], DisjunctTemplate(uris[|uris| - 1]), ql);
    }
  }
}
