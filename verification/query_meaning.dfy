/** The rows a built data query selects, against what its request asks for. */
module QueryMeaning {
  import opened Text
  import opened DataQuery
  import opened QueryBinding
  import SqlLexer
  import Like = LikePatterns

  /** How the server compares: characters in LIKE after `fold`, a cell of a column with a parameter. */
  datatype Server = Server(fold: Like.Fold, compare: (string, Operator, string, string) -> bool)

  /** A row by column name; nothing for NULL. */
  type Cells = string -> Option<string>

  // ---- What the server evaluates ----

  ghost predicate LikeHolds(server: Server, cell: Option<string>, param: Param) {
    cell.Some? && param.Bound? && Like.Like(server.fold, param.text, cell.value)
  }

  predicate CompareHolds(server: Server, column: string, op: Operator, cell: Option<string>, param: Param) {
    cell.Some? && param.Bound? && server.compare(column, op, cell.value, param.text)
  }

  /** The condition is true of a row; the parameters stand for the placeholders in order. */
  ghost predicate ConditionHolds(server: Server, c: Condition, cells: Cells)
    requires Matched(c)
  {
    match c.clause
    case NullTest(column, negated) => cells(column).None? != negated
    case InList(column, count) => exists i | 0 <= i < count :: CompareHolds(server, column, Eq, cells(column), c.params[i])
    case LikeTest(column) => LikeHolds(server, cells(column), c.params[0])
    case Compare(column, op) => CompareHolds(server, column, op, cells(column), c.params[0])
    case AnyLike(columns) => exists i | 0 <= i < |columns| :: LikeHolds(server, cells(columns[i]), c.params[i])
  }

  ghost predicate WhereHolds(server: Server, conditions: seq<Condition>, cells: Cells)
    requires forall c | c in conditions :: Matched(c)
  {
    forall c | c in conditions :: ConditionHolds(server, c, cells)
  }

  // ---- What the request asks for ----

  ghost predicate ContainsText(fold: Like.Fold, value: string, text: string) { exists i :: Like.At(fold, value, text, i) }

  ghost predicate FilterHolds(server: Server, f: Filter, cells: Cells) {
    var cell := cells(f.column);
    match f.operator
    case IsNull => cell.None?
    case IsNotNull => cell.Some?
    case In => cell.Some? && exists v | v in f.values :: server.compare(f.column, Eq, cell.value, v)
    case Contains => cell.Some? && f.value.Some? && ContainsText(server.fold, f.value.value, cell.value)
    case StartsWith => cell.Some? && f.value.Some? && Like.At(server.fold, f.value.value, cell.value, 0)
    case EndsWith => cell.Some? && f.value.Some? && Like.At(server.fold, f.value.value, cell.value, |cell.value| - |f.value.value|)
    case op => cell.Some? && f.value.Some? && server.compare(f.column, op, cell.value, f.value.value)
  }

  /** Some searchable column contains the search text; everything does when there is nothing to search. */
  ghost predicate SearchHolds(server: Server, search: string, searchable: seq<string>, cells: Cells) {
    search == "" || searchable == []
    || exists name | name in searchable :: cells(name).Some? && ContainsText(server.fold, search, cells(name).value)
  }

  ghost predicate RequestHolds(server: Server, source: Source, request: Request, cells: Cells) {
    && (forall f | f in request.filters :: FilterHolds(server, f, cells))
    && SearchHolds(server, SqlLexer.Trim(request.search), Searchable(Selected(request, source), source.kinds), cells)
  }

  // ---- The two agree ----

  /** A filter's clause takes exactly the parameters pushed with it, and says what the filter asks. */
  lemma FilterMeaning(server: Server, f: Filter, kind: Kind, cells: Cells)
    requires FilterClause(f, kind).Some?
    ensures var (clause, params) := FilterClause(f, kind).value;
      && Matched(Condition(clause, params))
      && (ConditionHolds(server, Condition(clause, params), cells) <==> FilterHolds(server, f, cells))
  {
    hide Like.Like, Like.Pattern, Like.At;
    var (clause, params) := FilterClause(f, kind).value;
    var cell := cells(f.column);
    if f.operator == In {
      if cell.Some? {
        forall i | 0 <= i < |f.values|
          ensures params[i] == Bound(f.values[i]) && f.values[i] in f.values
        {}
      }
    } else if IsLikeOperator(f.operator) && cell.Some? {
      Like.PatternsAreExact(server.fold, f.value.value, cell.value);
    }
  }

  function OwnConditions(filters: seq<Filter>, kinds: map<string, Kind>): seq<Condition>
    requires FilterClauses(filters, kinds).Some?
  {
    if filters == [] then []
    else
      var (clause, params) := FilterClause(filters[0], kinds[filters[0].column]).value;
      [Condition(clause, params)] + OwnConditions(filters[1..], kinds)
  }

  lemma {:induction false} FiltersDeal(filters: seq<Filter>, kinds: map<string, Kind>)
    requires FilterClauses(filters, kinds).Some?
    ensures var (clauses, params) := FilterClauses(filters, kinds).value;
      TotalHoles(clauses) == |params| && Deal(clauses, params) == OwnConditions(filters, kinds)
  {
    if filters != [] {
      hide FilterClause, Holes;
      var (clause, own) := FilterClause(filters[0], kinds[filters[0].column]).value;
      var (clauses, params) := FilterClauses(filters[1..], kinds).value;
      FiltersDeal(filters[1..], kinds);
      OwnHoles(filters[0], kinds[filters[0].column]);
      DealCons(clause, own, clauses, params);
    }
  }

  lemma OwnHoles(f: Filter, kind: Kind)
    requires FilterClause(f, kind).Some?
    ensures Holes(FilterClause(f, kind).value.0) == |FilterClause(f, kind).value.1|
  {}

  lemma {:induction false} FiltersMeaning(server: Server, filters: seq<Filter>, kinds: map<string, Kind>, cells: Cells)
    requires FilterClauses(filters, kinds).Some?
    ensures forall c | c in OwnConditions(filters, kinds) :: Matched(c)
    ensures WhereHolds(server, OwnConditions(filters, kinds), cells) <==> forall f | f in filters :: FilterHolds(server, f, cells)
  {
    if filters != [] {
      hide FilterClause, ConditionHolds, FilterHolds, Matched;
      var f := filters[0];
      var kind := kinds[f.column];
      var own := Condition(FilterClause(f, kind).value.0, FilterClause(f, kind).value.1);
      FilterMeaning(server, f, kind, cells);
      FiltersMeaning(server, filters[1..], kinds, cells);
      assert OwnConditions(filters, kinds) == [own] + OwnConditions(filters[1..], kinds);
      assert filters == [f] + filters[1..];
    }
  }

  function SearchCondition(search: string, searchable: seq<string>): seq<Condition> {
    if search == "" || searchable == [] then [] else [Condition(AnyLike(searchable), SearchParams(search, searchable))]
  }

  lemma SearchMeaning(server: Server, search: string, searchable: seq<string>, cells: Cells)
    ensures TotalHoles(SearchClauses(search, searchable)) == |SearchParams(search, searchable)|
    ensures Deal(SearchClauses(search, searchable), SearchParams(search, searchable)) == SearchCondition(search, searchable)
    ensures forall c | c in SearchCondition(search, searchable) :: Matched(c)
    ensures WhereHolds(server, SearchCondition(search, searchable), cells) <==> SearchHolds(server, search, searchable, cells)
  {
    var clauses, params := SearchClauses(search, searchable), SearchParams(search, searchable);
    if search != "" && searchable != [] {
      assert clauses[1..] == [] && TotalHoles(clauses[1..]) == 0;
      assert params[..|params|] == params;
      var c := Condition(AnyLike(searchable), params);
      assert SearchCondition(search, searchable) == [c];
      AnyLikeMeaning(server, search, searchable, cells);
    }
  }

  lemma AnyLikeMeaning(server: Server, search: string, searchable: seq<string>, cells: Cells)
    requires search != "" && searchable != []
    ensures var c := Condition(AnyLike(searchable), SearchParams(search, searchable));
      Matched(c) && (ConditionHolds(server, c, cells) <==> SearchHolds(server, search, searchable, cells))
  {
    hide Like.Like, Like.Pattern, ContainsText;
    var params := SearchParams(search, searchable);
    forall i | 0 <= i < |searchable|
      ensures LikeHolds(server, cells(searchable[i]), params[i])
        <==> cells(searchable[i]).Some? && ContainsText(server.fold, search, cells(searchable[i]).value)
    {
      if cells(searchable[i]).Some? {
        ContainsMeaning(server.fold, search, cells(searchable[i]).value);
      }
    }
  }

  lemma ContainsMeaning(fold: Like.Fold, search: string, text: string)
    ensures Like.Like(fold, Like.Pattern(Like.Contains, search), text) <==> ContainsText(fold, search, text)
  {
    Like.PatternsAreExact(fold, search, text);
  }

  /** The conditions a request leads to, each with its own parameters. */
  function Conditions(request: Request, source: Source): seq<Condition>
    requires FilterClauses(request.filters, source.kinds).Some?
  {
    OwnConditions(request.filters, source.kinds)
    + SearchCondition(SqlLexer.Trim(request.search), Searchable(Selected(request, source), source.kinds))
  }

  /**
   * The one parameter list a request pushes belongs to its clauses in order, and the clauses with
   * their parameters select exactly the rows that pass every filter and the search.
   */
  lemma BindingPreservesMeaning(server: Server, source: Source, request: Request, cells: Cells)
    requires WhereClauses(request, source).Some?
    ensures var (clauses, params) := WhereClauses(request, source).value;
      && TotalHoles(clauses) == |params|
      && Deal(clauses, params) == Conditions(request, source)
      && (forall c | c in Deal(clauses, params) :: Matched(c))
      && (WhereHolds(server, Deal(clauses, params), cells) <==> RequestHolds(server, source, request, cells))
  {
    hide Searchable, SearchClauses, SearchParams, SearchCondition, SearchHolds, FilterHolds, ConditionHolds, Matched;
    var search, searchable := SqlLexer.Trim(request.search), Searchable(Selected(request, source), source.kinds);
    var (clauses, params) := FilterClauses(request.filters, source.kinds).value;
    FiltersDeal(request.filters, source.kinds);
    FiltersMeaning(server, request.filters, source.kinds, cells);
    SearchMeaning(server, search, searchable, cells);
    DealAppend(clauses, params, SearchClauses(search, searchable), SearchParams(search, searchable));
  }
}
