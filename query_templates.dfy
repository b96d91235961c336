/** The query skeletons of the Jena Text query factory, piece by piece. Each
    literal piece is written as it appears in the skeleton; placeholders are
    slots. Every skeleton is proved well formed: its text pieces cannot be
    mistaken for a marker, and its slots are among the placeholders the
    factory fills in for it. */
module QueryTemplates {
  import opened Templates

  const QueryName: string := "QUERY"
  const LimitName: string := "LIMIT"
  const TypeUriName: string := "TYPE_URI"
  const PropertyUriName: string := "PROPERTY_URI"
  const ValueName: string := "VALUE"
  const LabelPropertyUriName: string := "LABEL_PROPERTY_URI"
  const LabelPropertyFilterName: string := "LABEL_PROPERTY_FILTER"
  const TypeFilterName: string := "TYPE_FILTER"
  const ContextFilterName: string := "CONTEXT_FILTER"

  const QueryHole: Segment := Slot(QueryName)
  const LimitHole: Segment := Slot(LimitName)
  const TypeUriHole: Segment := Slot(TypeUriName)
  const PropertyUriHole: Segment := Slot(PropertyUriName)
  const ValueHole: Segment := Slot(ValueName)
  const LabelPropertyUriHole: Segment := Slot(LabelPropertyUriName)
  const LabelPropertyFilterHole: Segment := Slot(LabelPropertyFilterName)
  const TypeFilterHole: Segment := Slot(TypeFilterName)
  const ContextFilterHole: Segment := Slot(ContextFilterName)

  // Lines shared by several skeletons

  const PrefixText: TidyTemplate := [Piece("PREFIX text:<http://jena.apache.org/"), Piece("text#> ")]
  const PrefixRdfs: TidyTemplate := [Piece("PREFIX rdfs:<http://www.w3.org/2000/"), Piece("01/rdf-schema#> ")]
  const PrefixSkos: TidyTemplate := [Piece("PREFIX skos:<http://www.w3.org/2004/"), Piece("02/skos/core#> ")]
  const PrefixRdf: TidyTemplate := [Piece("PREFIX rdf:<http://www.w3.org/1999/"), Piece("02/22-rdf-syntax-ns#> ")]

  /** The prefixes of the suggest and entity-search skeletons. */
  const SuggestPrefixes: Template := PrefixText + PrefixRdfs + PrefixSkos

  lemma SuggestPrefixesWellFormed()
    ensures WellFormed(SuggestPrefixes, {})
  {
    WellFormedJoin(PrefixText, PrefixRdfs, {}, {});
    WellFormedJoin(PrefixText + PrefixRdfs, PrefixSkos, {}, {});
  }

  /** The end of a text:query phrase: a prefix search, then the hit limit. */
  const StarLimit: TidyTemplate := [Piece("*' "), LimitHole, Piece(") . ")]
  const BoundLabelFilter: TidyTemplate := [Piece("FILTER (bound(?label1) || "), Piece("bound(?label2))")]
  const LimitEnd: TidyTemplate := [Piece("} LIMIT "), LimitHole]
  const EntityLabelSelect: TidyTemplate := [Piece("SELECT ?entity ?label ")]

  lemma StarLimitWellFormed()
    ensures WellFormed(StarLimit, {QueryName, LimitName})
  {
  }

  lemma EndsWellFormed()
    ensures WellFormed(BoundLabelFilter, {}) && WellFormed(LimitEnd, {LimitName})
  {
  }

  // SUGGEST_TYPE_QUERY_TEMPLATE

  const SuggestTypeColumns: TidyTemplate :=
    [Piece("SELECT DISTINCT ?type ?label1 "), Piece("?score1 ?label2 ?score2 ")]
  const SuggestTypeWhere: TidyTemplate := [PieceWithBlankNode("WHERE {", " a ?type. ")]
  const TypeScore1: TidyTemplate :=
    [Piece("OPTIONAL {(?type ?score1) text:query "), Piece("(rdfs:label '"), QueryHole]
  const TypeLabel1: TidyTemplate := [Piece("?type rdfs:label ?label1 . }")]
  const TypeScore2: TidyTemplate :=
    [Piece("OPTIONAL {(?type ?score2) text:query "), Piece("(skos:prefLabel '"), QueryHole]
  /** This line of the skeleton ends ") ." with no space. */
  const TypeStarLimit: TidyTemplate := [Piece("*' "), LimitHole, Piece(") .")]
  const TypeLabel2: TidyTemplate := [Piece("?type skos:prefLabel ?label2 . } ")]

  const SuggestTypeLabel: Template := TypeScore1 + StarLimit + TypeLabel1
  const SuggestTypePrefLabel: Template := TypeScore2 + TypeStarLimit + TypeLabel2

  const SuggestTypeTemplate: Template :=
    SuggestPrefixes + SuggestTypeColumns + SuggestTypeWhere + SuggestTypeLabel + SuggestTypePrefLabel
    + BoundLabelFilter + LimitEnd

  lemma SuggestTypeHeadWellFormed()
    ensures WellFormed(SuggestPrefixes + SuggestTypeColumns + SuggestTypeWhere, {})
  {
    SuggestPrefixesWellFormed();
    assert WellFormed(SuggestTypeColumns, {}) && WellFormed(SuggestTypeWhere, {});
    WellFormedAppend(SuggestPrefixes, SuggestTypeColumns, {});
    WellFormedAppend(SuggestPrefixes + SuggestTypeColumns, SuggestTypeWhere, {});
  }

  lemma SuggestTypeLabelsWellFormed()
    ensures WellFormed(SuggestTypeLabel, {QueryName, LimitName})
    ensures WellFormed(SuggestTypePrefLabel, {QueryName, LimitName})
  {
    var ql := {QueryName, LimitName};
    StarLimitWellFormed();
    assert WellFormed(TypeScore1, ql) && WellFormed(TypeLabel1, ql);
    WellFormedAppend(TypeScore1, StarLimit, ql);
    WellFormedAppend(TypeScore1 + StarLimit, TypeLabel1, ql);
    assert WellFormed(TypeScore2, ql) && WellFormed(TypeStarLimit, ql) && WellFormed(TypeLabel2, ql);
    WellFormedAppend(TypeScore2, TypeStarLimit, ql);
    WellFormedAppend(TypeScore2 + TypeStarLimit, TypeLabel2, ql);
  }

  lemma SuggestTypeWellFormed()
    ensures WellFormed(SuggestTypeTemplate, {QueryName, LimitName})
  {
    var ql := {QueryName, LimitName};
    var head := SuggestPrefixes + SuggestTypeColumns + SuggestTypeWhere;
    var labels := SuggestTypeLabel + SuggestTypePrefLabel;
    SuggestTypeHeadWellFormed();
    SuggestTypeLabelsWellFormed();
    EndsWellFormed();
    WellFormedAppend(SuggestTypeLabel, SuggestTypePrefLabel, ql);
    WellFormedJoin(head, labels, {}, ql);
    WellFormedJoin(head + labels, BoundLabelFilter, {} + ql, {});
    WellFormedJoin(head + labels + BoundLabelFilter, LimitEnd, {} + ql + {}, {LimitName});
    assert {} + ql + {} + {LimitName} == ql;
    assert head + labels + BoundLabelFilter + LimitEnd == SuggestTypeTemplate;
  }

  // Lines shared by the two property-suggest skeletons

  const PropertyColumns: TidyTemplate :=
    [Piece("SELECT DISTINCT ?p ?label1 ?score1 "), Piece("?label2 ?score2 ")]
  const PropertyScore1: TidyTemplate :=
    [Piece("OPTIONAL {(?p ?score1) text:query "), Piece("(rdfs:label '"), QueryHole]
  const PropertyLabel1: TidyTemplate := [Piece("?p rdfs:label ?label1. }")]
  const PropertyScore2: TidyTemplate :=
    [Piece("OPTIONAL {(?p ?score2) text:query "), Piece("(skos:prefLabel '"), QueryHole]

  lemma PropertyScoresWellFormed()
    ensures WellFormed(PropertyScore1 + StarLimit + PropertyLabel1, {QueryName, LimitName})
    ensures WellFormed(PropertyScore2 + StarLimit, {QueryName, LimitName})
  {
    var ql := {QueryName, LimitName};
    StarLimitWellFormed();
    assert WellFormed(PropertyScore1, ql) && WellFormed(PropertyLabel1, ql) && WellFormed(PropertyScore2, ql);
    WellFormedAppend(PropertyScore1, StarLimit, ql);
    WellFormedAppend(PropertyScore1 + StarLimit, PropertyLabel1, ql);
    WellFormedAppend(PropertyScore2, StarLimit, ql);
  }

  // SUGGEST_PROPERTY_WITH_SPECIFIC_SUBJECT_TYPE_QUERY_TEMPLATE

  const PropertyOfTypeWhere: TidyTemplate :=
    [PieceWithBlankNode("WHERE{", " a <"), TypeUriHole, Piece(">; ?p ?v. ")]
  const PropertyOfTypeLabel2: TidyTemplate := [Piece("?p skos:prefLabel ?label2 . }")]

  const PropertyOfTypeLabel: Template := PropertyScore1 + StarLimit + PropertyLabel1
  const PropertyOfTypePrefLabel: Template := PropertyScore2 + StarLimit + PropertyOfTypeLabel2

  const SuggestPropertyOfTypeTemplate: Template :=
    SuggestPrefixes + PropertyColumns + PropertyOfTypeWhere + PropertyOfTypeLabel + PropertyOfTypePrefLabel
    + BoundLabelFilter + LimitEnd

  lemma PropertyOfTypeLinesWellFormed()
    ensures WellFormed(SuggestPrefixes + PropertyColumns + PropertyOfTypeWhere, {TypeUriName})
    ensures WellFormed(PropertyOfTypeLabel + PropertyOfTypePrefLabel, {QueryName, LimitName})
  {
    PropertyOfTypeHeadWellFormed();
    PropertyOfTypeLabelsWellFormed();
  }

  lemma PropertyOfTypeHeadWellFormed()
    ensures WellFormed(SuggestPrefixes + PropertyColumns + PropertyOfTypeWhere, {TypeUriName})
  {
    SuggestPrefixesWellFormed();
    PropertyOfTypeWhereWellFormed();
    WellFormedJoin(SuggestPrefixes, PropertyColumns, {}, {});
    WellFormedJoin(SuggestPrefixes + PropertyColumns, PropertyOfTypeWhere, {} + {}, {TypeUriName});
    assert {} + {} + {TypeUriName} == {TypeUriName};
  }

  lemma PropertyOfTypeWhereWellFormed()
    ensures WellFormed(PropertyColumns, {}) && WellFormed(PropertyOfTypeWhere, {TypeUriName})
  {
  }

  lemma PropertyOfTypeLabelsWellFormed()
    ensures WellFormed(PropertyOfTypeLabel + PropertyOfTypePrefLabel, {QueryName, LimitName})
  {
    var ql := {QueryName, LimitName};
    PropertyScoresWellFormed();
    assert WellFormed(PropertyOfTypeLabel2, ql);
    WellFormedAppend(PropertyScore2 + StarLimit, PropertyOfTypeLabel2, ql);
    WellFormedAppend(PropertyOfTypeLabel, PropertyOfTypePrefLabel, ql);
  }

  lemma SuggestPropertyOfTypeWellFormed()
    ensures WellFormed(SuggestPropertyOfTypeTemplate, {QueryName, LimitName, TypeUriName})
  {
    var ql := {QueryName, LimitName};
    var head := SuggestPrefixes + PropertyColumns + PropertyOfTypeWhere;
    var labels := PropertyOfTypeLabel + PropertyOfTypePrefLabel;
    PropertyOfTypeLinesWellFormed();
    EndsWellFormed();
    WellFormedJoin(head, labels, {TypeUriName}, ql);
    WellFormedJoin(head + labels, BoundLabelFilter, {TypeUriName} + ql, {});
    WellFormedJoin(head + labels + BoundLabelFilter, LimitEnd, {TypeUriName} + ql + {}, {LimitName});
    assert {TypeUriName} + ql + {} + {LimitName} == {QueryName, LimitName, TypeUriName};
    assert head + labels + BoundLabelFilter + LimitEnd == SuggestPropertyOfTypeTemplate;
  }

  // SUGGEST_PROPERTY_QUERY_TEMPLATE

  const PropertyWhere: TidyTemplate := [PieceWithBlankNode("WHERE { ", " ?p ?v. ")]
  /** Two spaces before the limit, as in the skeleton. */
  const PropertyStarLimit: TidyTemplate := [Piece("*'  "), LimitHole, Piece(") . ")]
  const PropertyLabel2: TidyTemplate := [Piece("?p skos:prefLabel ?label2. }")]
  const PropertyEnd: TidyTemplate := [Piece(" } LIMIT "), LimitHole]

  const PropertyLabel: Template := PropertyScore1 + PropertyStarLimit + PropertyLabel1
  const PropertyPrefLabel: Template := PropertyScore2 + StarLimit + PropertyLabel2

  const SuggestPropertyTemplate: Template :=
    SuggestPrefixes + PropertyColumns + PropertyWhere + PropertyLabel + PropertyPrefLabel
    + BoundLabelFilter + PropertyEnd

  lemma PropertyHeadWellFormed()
    ensures WellFormed(SuggestPrefixes + PropertyColumns + PropertyWhere, {})
  {
    SuggestPrefixesWellFormed();
    assert WellFormed(PropertyColumns, {}) && WellFormed(PropertyWhere, {});
    WellFormedAppend(SuggestPrefixes, PropertyColumns, {});
    WellFormedAppend(SuggestPrefixes + PropertyColumns, PropertyWhere, {});
  }

  lemma PropertyLabelsWellFormed()
    ensures WellFormed(PropertyLabel + PropertyPrefLabel, {QueryName, LimitName})
  {
    var ql := {QueryName, LimitName};
    PropertyScoresWellFormed();
    assert WellFormed(PropertyScore1, ql) && WellFormed(PropertyStarLimit, ql) && WellFormed(PropertyLabel1, ql);
    WellFormedAppend(PropertyScore1, PropertyStarLimit, ql);
    WellFormedAppend(PropertyScore1 + PropertyStarLimit, PropertyLabel1, ql);
    assert WellFormed(PropertyLabel2, ql);
    WellFormedAppend(PropertyScore2 + StarLimit, PropertyLabel2, ql);
    WellFormedAppend(PropertyLabel, PropertyPrefLabel, ql);
  }

  lemma PropertyEndWellFormed()
    ensures WellFormed(PropertyEnd, {LimitName})
  {
  }

  lemma SuggestPropertyWellFormed()
    ensures WellFormed(SuggestPropertyTemplate, {QueryName, LimitName})
  {
    var ql := {QueryName, LimitName};
    var head := SuggestPrefixes + PropertyColumns + PropertyWhere;
    var labels := PropertyLabel + PropertyPrefLabel;
    PropertyHeadWellFormed();
    PropertyLabelsWellFormed();
    EndsWellFormed();
    PropertyEndWellFormed();
    WellFormedJoin(head, labels, {}, ql);
    WellFormedJoin(head + labels, BoundLabelFilter, {} + ql, {});
    WellFormedJoin(head + labels + BoundLabelFilter, PropertyEnd, {} + ql + {}, {LimitName});
    assert {} + ql + {} + {LimitName} == ql;
    assert head + labels + BoundLabelFilter + PropertyEnd == SuggestPropertyTemplate;
  }

  // RECONCILE_QUERY_TEMPLATE: any number of label properties but one; no ordering

  const ReconcileWhere: TidyTemplate :=
    [Piece("WHERE{"), LabelPropertyFilterHole, TypeFilterHole, ContextFilterHole]
  const ReconcileEnd: TidyTemplate :=
    [Piece(" FILTER (isIRI(?entity))} "), Piece("GROUP BY ?entity ?label "), Piece("LIMIT "), LimitHole]

  const ReconcileTemplate: Template :=
    PrefixText + PrefixRdfs + PrefixRdf + PrefixSkos + EntityLabelSelect + ReconcileWhere + ReconcileEnd

  lemma PrefixesWellFormed()
    ensures WellFormed(PrefixText, {}) && WellFormed(PrefixRdfs, {})
    ensures WellFormed(PrefixRdf, {}) && WellFormed(PrefixSkos, {})
    ensures WellFormed(EntityLabelSelect, {})
  {
  }

  lemma ReconcileLinesWellFormed()
    ensures WellFormed(ReconcileWhere, {LabelPropertyFilterName, TypeFilterName, ContextFilterName})
    ensures WellFormed(ReconcileEnd, {LimitName})
  {
  }

  lemma ReconcileWellFormed()
    ensures WellFormed(ReconcileTemplate,
      {LabelPropertyFilterName, TypeFilterName, ContextFilterName, LimitName})
  {
    var filters := {LabelPropertyFilterName, TypeFilterName, ContextFilterName};
    var head := PrefixText + PrefixRdfs + PrefixRdf + PrefixSkos + EntityLabelSelect;
    PrefixesWellFormed();
    ReconcileLinesWellFormed();
    WellFormedAppend(PrefixText, PrefixRdfs, {});
    WellFormedAppend(PrefixText + PrefixRdfs, PrefixRdf, {});
    WellFormedAppend(PrefixText + PrefixRdfs + PrefixRdf, PrefixSkos, {});
    WellFormedAppend(PrefixText + PrefixRdfs + PrefixRdf + PrefixSkos, EntityLabelSelect, {});
    WellFormedJoin(head, ReconcileWhere, {}, filters);
    WellFormedJoin(head + ReconcileWhere, ReconcileEnd, {} + filters, {LimitName});
    assert {} + filters + {LimitName} == {LabelPropertyFilterName, TypeFilterName, ContextFilterName, LimitName};
  }

  // SINGLE_LABEL_PROPERTY_RECONCILE_QUERY_TEMPLATE: one label property,
  // answers ordered by score

  const SingleWhere: TidyTemplate := [Piece("WHERE { ")]
  const SingleTextQuery: TidyTemplate :=
    [Piece("(?entity ?score1) text:query (<"), LabelPropertyUriHole, Piece("> '"),
     QueryHole, Piece("' "), LimitHole, Piece(") . ")]
  const SingleLabel: TidyTemplate :=
    [Piece("?entity <"), LabelPropertyUriHole, Piece("> ?label ."), TypeFilterHole, ContextFilterHole]
  const SingleEnd: TidyTemplate :=
    [Piece("}GROUP BY ?entity ?label "), Piece("ORDER BY DESC(?score1) LIMIT "), LimitHole]

  const SingleReconcileTemplate: Template :=
    PrefixRdfs + PrefixText + PrefixRdf + EntityLabelSelect + SingleWhere + SingleTextQuery + SingleLabel
    + SingleEnd

  lemma SingleReconcileLinesWellFormed()
    ensures WellFormed(SingleWhere, {})
    ensures WellFormed(SingleTextQuery, {LabelPropertyUriName, QueryName, LimitName})
    ensures WellFormed(SingleLabel, {LabelPropertyUriName, TypeFilterName, ContextFilterName})
    ensures WellFormed(SingleEnd, {LimitName})
  {
  }

  lemma SingleReconcileHeadWellFormed()
    ensures WellFormed(PrefixRdfs + PrefixText + PrefixRdf + EntityLabelSelect + SingleWhere, {})
  {
    PrefixesWellFormed();
    SingleReconcileLinesWellFormed();
    WellFormedAppend(PrefixRdfs, PrefixText, {});
    WellFormedAppend(PrefixRdfs + PrefixText, PrefixRdf, {});
    WellFormedAppend(PrefixRdfs + PrefixText + PrefixRdf, EntityLabelSelect, {});
    WellFormedAppend(PrefixRdfs + PrefixText + PrefixRdf + EntityLabelSelect, SingleWhere, {});
  }

  lemma SingleReconcileWellFormed()
    ensures WellFormed(SingleReconcileTemplate,
      {LabelPropertyUriName, QueryName, LimitName, TypeFilterName, ContextFilterName})
  {
    var a := {LabelPropertyUriName, QueryName, LimitName};
    var b := {LabelPropertyUriName, TypeFilterName, ContextFilterName};
    var head := PrefixRdfs + PrefixText + PrefixRdf + EntityLabelSelect + SingleWhere;
    SingleReconcileHeadWellFormed();
    SingleReconcileLinesWellFormed();
    WellFormedJoin(head, SingleTextQuery, {}, a);
    WellFormedJoin(head + SingleTextQuery, SingleLabel, {} + a, b);
    WellFormedJoin(head + SingleTextQuery + SingleLabel, SingleEnd, {} + a + b, {LimitName});
    assert {} + a + b + {LimitName} == {LabelPropertyUriName, QueryName, LimitName, TypeFilterName, ContextFilterName};
  }

  // PROPERTY_FILTER: one clause of the context filter

  const PropertyFilterTemplate: TidyTemplate :=
    [Piece("?entity <"), PropertyUriHole, Piece("> "), ValueHole, Piece(". ")]

  lemma PropertyFilterWellFormed()
    ensures WellFormed(PropertyFilterTemplate, {PropertyUriName, ValueName})
  {
  }

  // SAMPLE_INSTANCES_OF_TYPE_QUERY_TEMPLATE

  const SampleSelect: TidyTemplate :=
    [Piece("SELECT ?entity (SAMPLE(?label) "), Piece("AS ?label1) WHERE{"),
     Piece("?entity a <"), TypeUriHole, Piece(">. ")]
  const SampleEnd: TidyTemplate :=
    [Piece("?entity <"), PropertyUriHole, Piece("> ?label."),
     Piece("}GROUP BY ?entity LIMIT "), LimitHole]

  const SampleInstancesTemplate: Template := SampleSelect + SampleEnd

  lemma SampleInstancesWellFormed()
    ensures WellFormed(SampleInstancesTemplate, {TypeUriName, PropertyUriName, LimitName})
  {
    var names := {TypeUriName, PropertyUriName, LimitName};
    assert WellFormed(SampleSelect, names) && WellFormed(SampleEnd, names);
    WellFormedAppend(SampleSelect, SampleEnd, names);
  }

  // SEARCH_ENTITY_QUERY_TEMPLATE

  const SearchEntityWhere: TidyTemplate :=
    [Piece("WHERE {"), LabelPropertyFilterHole, Piece(". ")]

  const SearchEntityTemplate: Template :=
    SuggestPrefixes + EntityLabelSelect + SearchEntityWhere + LimitEnd

  lemma SearchEntityWellFormed()
    ensures WellFormed(SearchEntityTemplate, {LabelPropertyFilterName, LimitName})
  {
    var names := {LabelPropertyFilterName, LimitName};
    SuggestPrefixesWellFormed();
    assert WellFormed(SuggestPrefixes, names) by {
      assert HolesIn(SuggestPrefixes, {});
    }
    assert WellFormed(EntityLabelSelect, names) && WellFormed(SearchEntityWhere, names);
    assert WellFormed(LimitEnd, names);
    WellFormedAppend(SuggestPrefixes, EntityLabelSelect, names);
    WellFormedAppend(SuggestPrefixes + EntityLabelSelect, SearchEntityWhere, names);
    WellFormedAppend(SuggestPrefixes + EntityLabelSelect + SearchEntityWhere, LimitEnd, names);
  }
}
