/** How JenaTextSparqlQueryFactory reads the answers of its suggest
    queries: each row binds the suggested resource and, from two OPTIONAL
    text searches, a label and a score per labelling property; the row's
    label is the one with the higher score. */
module ResultWrapping {
  import opened Wrappers

  /** One row of a suggest query's result set: the resources it binds by
      variable name, and the literals ?label1 ?score1 ?label2 ?score2, each
      absent when its OPTIONAL block did not match (a null literal). A
      score is read as its double value, here a real. */
  datatype Solution = Solution(
    resources: map<string, string>,
    label1: Option<string>, score1: Option<real>,
    label2: Option<string>, score2: Option<real>)

  /** SearchResultItem(id, name). */
  datatype SearchResultItem = SearchResultItem(id: string, name: string)

  /** A NullPointerException: a literal or resource the row does not bind
      was dereferenced. */
  datatype Failure = NullLiteral(variable: string) | NullResource(variable: string)

  function LabelOf(l: Option<string>, variable: string): Result<string, Failure> {
    match l
    case Some(s) => Ok(s)
    case None => Err(NullLiteral(variable))
  }

  /** getPreferredLabel: with only ?score1, label1; with both scores,
      label1 when its score is strictly higher, otherwise label2; with only
      ?score2, label2; with neither, the empty string. */
  function PreferredLabel(sol: Solution): Result<string, Failure> {
    if sol.score1.Some? then
      if sol.score2.None? then LabelOf(sol.label1, "label1")
      else if sol.score1.value > sol.score2.value then LabelOf(sol.label1, "label1")
      else LabelOf(sol.label2, "label2")
    else if sol.score2.Some? then LabelOf(sol.label2, "label2")
    else Ok("")
  }

  /** The score a side of the row has, absent scores ranking below all. */
  predicate Outranks(a: Option<real>, b: Option<real>) {
    a.Some? && (b.None? || a.value > b.value)
  }

  /** The row with its two label columns exchanged. */
  function Swap(sol: Solution): Solution {
    Solution(sol.resources, sol.label2, sol.score2, sol.label1, sol.score1)
  }

  /** The preferred label is that of the side whose score ranks strictly
      higher; on equal scores it is label2; with no score it is "". */
  lemma PreferredLabelRanks(sol: Solution)
    ensures Outranks(sol.score1, sol.score2) ==> PreferredLabel(sol) == LabelOf(sol.label1, "label1")
    ensures Outranks(sol.score2, sol.score1) ==> PreferredLabel(sol) == LabelOf(sol.label2, "label2")
    ensures sol.score1.Some? && sol.score2.Some? && sol.score1.value == sol.score2.value
      ==> PreferredLabel(sol) == LabelOf(sol.label2, "label2")
    ensures sol.score1.None? && sol.score2.None? ==> PreferredLabel(sol) == Ok("")
  {
  }

  /** Which column a label sits in does not matter, unless the two scores
      are equal: exchanging the columns picks the same label. */
  lemma PreferredLabelSymmetric(sol: Solution)
    requires !(sol.score1.Some? && sol.score2.Some? && sol.score1.value == sol.score2.value)
    requires sol.label1.Some? && sol.label2.Some?
    ensures PreferredLabel(Swap(sol)) == PreferredLabel(sol)
  {
  }

  /** With equal scores and different labels, exchanging the columns
      changes the answer: ties go to the second column, not to a label. */
  lemma PreferredLabelTieBreak(sol: Solution)
    requires sol.score1.Some? && sol.score2.Some? && sol.score1.value == sol.score2.value
    requires sol.label1.Some? && sol.label2.Some? && sol.label1 != sol.label2
    ensures PreferredLabel(Swap(sol)) != PreferredLabel(sol)
    ensures PreferredLabel(sol) == Ok(sol.label2.value)
  {
  }

  /** The item one row becomes: the URI bound to `column` and the preferred
      label. */
  function WrapRow(sol: Solution, column: string): Result<SearchResultItem, Failure> {
    if column !in sol.resources then Err(NullResource(column))
    else match PreferredLabel(sol)
      case Err(e) => Err(e)
      case Ok(l) => Ok(SearchResultItem(sol.resources[column], l))
  }

  /** The rows wrapped in order; the first failing row ends the loop with
      its exception. */
  function WrapRows(rows: seq<Solution>, column: string): Result<seq<SearchResultItem>, Failure>
    decreases |rows|
  {
    if rows == [] then Ok([])
    else match WrapRows(rows[..|rows| - 1], column)
      case Err(e) => Err(e)
      case Ok(items) =>
        match WrapRow(rows[|rows| - 1], column)
        case Err(e) => Err(e)
        case Ok(item) => Ok(items + [item])
  }

  /** Wrapping succeeds exactly when every row can be wrapped, and then it
      gives one item per row, in row order. */
  lemma {:induction false} WrapRowsItems(rows: seq<Solution>, column: string)
    ensures WrapRows(rows, column).Ok? <==> forall k :: 0 <= k < |rows| ==> WrapRow(rows[k], column).Ok?
    ensures WrapRows(rows, column).Ok? ==>
      |WrapRows(rows, column).value| == |rows|
      && forall k :: 0 <= k < |rows| ==> WrapRows(rows, column).value[k] == WrapRow(rows[k], column).value
    decreases |rows|
  {
    if rows != [] {
      var init := rows[..|rows| - 1];
      WrapRowsItems(init, column);
      assert forall k :: 0 <= k < |init| ==> init[k] == rows[k];
    }
  }

  /** A failing row makes the whole wrapping fail with the exception of
      the first failing row. */
  lemma {:induction false} WrapRowsFirstFailure(rows: seq<Solution>, column: string, k: nat)
    requires k < |rows| && WrapRow(rows[k], column).Err?
    requires forall j :: 0 <= j < k ==> WrapRow(rows[j], column).Ok?
    ensures WrapRows(rows, column) == Err(WrapRow(rows[k], column).error)
    decreases |rows|
  {
    var init := rows[..|rows| - 1];
    if k < |rows| - 1 {
      assert init[k] == rows[k];
      assert forall j :: 0 <= j < k ==> init[j] == rows[j];
      WrapRowsFirstFailure(init, column, k);
    } else {
      WrapRowsItems(init, column);
      assert forall j :: 0 <= j < |init| ==> init[j] == rows[j];
    }
  }

  /** wrapTypeSuggestResultSet: one item per row, the URI of ?type and the
      preferred label. The prefix and limit it is given are not used. */
  method WrapTypeSuggestResultSet(resultSet: seq<Solution>, prefix: string, limit: int)
      returns (result: Result<seq<SearchResultItem>, Failure>)
    ensures result == WrapRows(resultSet, "type")
  {
    var items: seq<SearchResultItem> := [];
    var i := 0;
    while i < |resultSet|
      invariant 0 <= i <= |resultSet|
      invariant WrapRows(resultSet[..i], "type") == Ok(items)
    {
      var sol := resultSet[i];
      assert resultSet[..i + 1][..i] == resultSet[..i];
      if "type" !in sol.resources {
        WrapRowsStops(resultSet, "type", i);
        return Err(NullResource("type"));
      }
      var uri := sol.resources["type"];
      var preferred := PreferredLabel(sol);
      if preferred.Err? {
        WrapRowsStops(resultSet, "type", i);
        return Err(preferred.error);
      }
      items := items + [SearchResultItem(uri, preferred.value)];
      i := i + 1;
    }
    assert resultSet[..i] == resultSet;
    result := Ok(items);
  }

  /** wrapPropertySuggestResultSet: the same over ?p. */
  method WrapPropertySuggestResultSet(resultSet: seq<Solution>, prefix: string, limit: int)
      returns (result: Result<seq<SearchResultItem>, Failure>)
    ensures result == WrapRows(resultSet, "p")
  {
    var items: seq<SearchResultItem> := [];
    var i := 0;
    while i < |resultSet|
      invariant 0 <= i <= |resultSet|
      invariant WrapRows(resultSet[..i], "p") == Ok(items)
    {
      var sol := resultSet[i];
      assert resultSet[..i + 1][..i] == resultSet[..i];
      if "p" !in sol.resources {
        WrapRowsStops(resultSet, "p", i);
        return Err(NullResource("p"));
      }
      var uri := sol.resources["p"];
      var preferred := PreferredLabel(sol);
      if preferred.Err? {
        WrapRowsStops(resultSet, "p", i);
        return Err(preferred.error);
      }
      items := items + [SearchResultItem(uri, preferred.value)];
      i := i + 1;
    }
    assert resultSet[..i] == resultSet;
    result := Ok(items);
  }

  /** A row that fails after rows that all wrapped decides the result. */
  lemma WrapRowsStops(rows: seq<Solution>, column: string, i: nat)
    requires i < |rows| && WrapRows(rows[..i], column).Ok? && WrapRow(rows[i], column).Err?
    ensures WrapRows(rows, column) == Err(WrapRow(rows[i], column).error)
  {
    WrapRowsItems(rows[..i], column);
    assert forall j :: 0 <= j < i ==> rows[..i][j] == rows[j];
    WrapRowsFirstFailure(rows, column, i);
  }
}
