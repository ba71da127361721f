/**
 * The query builder of the data browser: SQL text with `?` placeholders, and the parameters it
 * pushes along the way.
 */
module DataQuery {
  import opened Text
  import opened SqlLexer
  import opened DataPaging
  import SqlDump
  import Like = LikePatterns

  datatype Kind = TextKind | NumberKind | DateKind | OtherKind

  datatype Operator = Eq | Neq | Gt | Gte | Lt | Lte | Contains | StartsWith | EndsWith | In | IsNull | IsNotNull

  datatype Filter = Filter(column: string, operator: Operator, value: Option<string>, values: seq<string>)

  /** A parameter value; `NullParam` is SQL's NULL. */
  datatype Param = Bound(text: string) | Count(n: nat) | NullParam

  /** The table browsed: its name, its columns in order, and what the server says they hold. */
  datatype Source = Source(schema: string, name: string, columns: seq<string>, kinds: map<string, Kind>)

  datatype Request = Request(columns: seq<string>, filters: seq<Filter>, search: string, sort: seq<Sort>,
                             limit: nat, offset: nat)

  const MAX_PAGE_SIZE := 500

  predicate AllowedOperator(kind: Kind, operator: Operator) {
    if operator == IsNull || operator == IsNotNull || operator == In then true
    else match kind
      case TextKind => operator in [Eq, Neq, Contains, StartsWith, EndsWith]
      case NumberKind => operator in [Eq, Neq, Gt, Gte, Lt, Lte]
      case DateKind => operator in [Eq, Neq, Gt, Gte, Lt, Lte]
      case OtherKind => operator == Eq || operator == Neq
  }

  /** A predicate of the WHERE clause; its placeholders are filled from the parameters in order. */
  datatype Clause =
    | NullTest(column: string, negated: bool)
    | InList(column: string, count: nat)
    | LikeTest(column: string)
    | Compare(column: string, operator: Operator)
    | AnyLike(columns: seq<string>)

  function Holes(c: Clause): nat {
    match c
    case NullTest(_, _) => 0
    case InList(_, count) => count
    case LikeTest(_) => 1
    case Compare(_, _) => 1
    case AnyLike(columns) => |columns|
  }

  predicate IsLikeOperator(op: Operator) { op == Contains || op == StartsWith || op == EndsWith }

  function LikeOperator(op: Operator): Like.Operator {
    if op == Contains then Like.Contains else if op == StartsWith then Like.StartsWith else Like.EndsWith
  }

  function Bounds(values: seq<string>): seq<Param> {
    seq(|values|, i requires 0 <= i < |values| => Bound(values[i]))
  }

  /** `filterClause`: the clause and the parameters it pushes, nothing when the filter is invalid. */
  function FilterClause(f: Filter, kind: Kind): Option<(Clause, seq<Param>)> {
    if !AllowedOperator(kind, f.operator) then None
    else if f.operator == IsNull then Some((NullTest(f.column, false), []))
    else if f.operator == IsNotNull then Some((NullTest(f.column, true), []))
    else if f.operator == In then
      if f.values == [] then None else Some((InList(f.column, |f.values|), Bounds(f.values)))
    else if f.value == None then None
    else if IsLikeOperator(f.operator) then
      Some((LikeTest(f.column), [Bound(Like.Pattern(LikeOperator(f.operator), f.value.value))]))
    else Some((Compare(f.column, f.operator), [Bound(f.value.value)]))
  }

  function FilterClauses(filters: seq<Filter>, kinds: map<string, Kind>): Option<(seq<Clause>, seq<Param>)> {
    if filters == [] then Some(([], []))
    else if filters[0].column !in kinds then None
    else match FilterClause(filters[0], kinds[filters[0].column])
      case None => None
      case Some((clause, params)) =>
        match FilterClauses(filters[1..], kinds)
        case None => None
        case Some((clauses, rest)) => Some(([clause] + clauses, params + rest))
  }

  function Searchable(columns: seq<string>, kinds: map<string, Kind>): seq<string> {
    if columns == [] then []
    else (if columns[0] in kinds && kinds[columns[0]] == TextKind then [columns[0]] else []) + Searchable(columns[1..], kinds)
  }

  function SearchClauses(search: string, searchable: seq<string>): seq<Clause> {
    if search == "" || searchable == [] then [] else [AnyLike(searchable)]
  }

  function SearchParams(search: string, searchable: seq<string>): seq<Param> {
    if search == "" then [] else seq(|searchable|, _ => Bound(Like.Pattern(Like.Contains, search)))
  }

  function Selected(request: Request, source: Source): seq<string> {
    if request.columns != [] then request.columns else source.columns
  }

  predicate ValidSelection(selected: seq<string>, kinds: map<string, Kind>) {
    && (forall i, j | 0 <= i < j < |selected| :: selected[i] != selected[j])
    && (forall name | name in selected :: name in kinds)
  }

  /** The WHERE clauses of a request with their parameters. */
  function WhereClauses(request: Request, source: Source): Option<(seq<Clause>, seq<Param>)> {
    var selected := Selected(request, source);
    var search := Trim(request.search);
    var searchable := Searchable(selected, source.kinds);
    if !ValidSelection(selected, source.kinds) then None
    else match FilterClauses(request.filters, source.kinds)
      case None => None
      case Some((clauses, params)) =>
        Some((clauses + SearchClauses(search, searchable), params + SearchParams(search, searchable)))
  }

  // ---- Text ----

  /** Fixed text and placeholders. */
  datatype Part = Fixed(text: string) | Hole

  function Render(parts: seq<Part>): string {
    if parts == [] then "" else (if parts[0].Hole? then "?" else parts[0].text) + Render(parts[1..])
  }

  function HoleCount(parts: seq<Part>): nat {
    if parts == [] then 0 else (if parts[0].Hole? then 1 else 0) + HoleCount(parts[1..])
  }

  function Quoted(e: Engine, name: string): Part { Fixed(SqlDump.QuoteIdentifier(e, name)) }

  function OperatorText(op: Operator): string {
    match op
    case Eq => "="
    case Neq => "<>"
    case Gt => ">"
    case Gte => ">="
    case Lt => "<"
    case _ => "<="
  }

  function LikeText(e: Engine): string { if e == Mysql then " LIKE " else " ILIKE " }

  function EscapeText(e: Engine): string { if e == Mysql then " ESCAPE '\\\\'" else " ESCAPE '\\'" }

  function LikeParts(e: Engine, column: string): seq<Part> {
    [Quoted(e, column), Fixed(LikeText(e)), Hole, Fixed(EscapeText(e))]
  }

  /** `n` placeholders with commas. */
  function HoleList(n: nat): seq<Part> {
    if n == 0 then [] else if n == 1 then [Hole] else [Hole, Fixed(", ")] + HoleList(n - 1)
  }

  function AnyLikeParts(e: Engine, columns: seq<string>): seq<Part> {
    if columns == [] then []
    else if |columns| == 1 then LikeParts(e, columns[0])
    else LikeParts(e, columns[0]) + [Fixed(" OR ")] + AnyLikeParts(e, columns[1..])
  }

  function ClauseParts(e: Engine, c: Clause): seq<Part> {
    match c
    case NullTest(column, negated) => [Quoted(e, column), Fixed(if negated then " IS NOT NULL" else " IS NULL")]
    case InList(column, count) => [Quoted(e, column), Fixed(" IN (")] + HoleList(count) + [Fixed(")")]
    case LikeTest(column) => LikeParts(e, column)
    case Compare(column, op) => [Quoted(e, column), Fixed(" " + OperatorText(op) + " "), Hole]
    case AnyLike(columns) => [Fixed("(")] + AnyLikeParts(e, columns) + [Fixed(")")]
  }

  /** The predicates joined by AND. */
  function ConjunctionParts(e: Engine, clauses: seq<Clause>): seq<Part> {
    if clauses == [] then []
    else if |clauses| == 1 then ClauseParts(e, clauses[0])
    else ClauseParts(e, clauses[0]) + [Fixed(" AND ")] + ConjunctionParts(e, clauses[1..])
  }

  function WhereParts(e: Engine, clauses: seq<Clause>): seq<Part> {
    if clauses == [] then [] else [Fixed(" WHERE ")] + ConjunctionParts(e, clauses)
  }

  function SortText(e: Engine, s: Sort): string {
    SqlDump.QuoteIdentifier(e, s.column) + (if s.descending then " DESC" else " ASC")
  }

  function SortTexts(e: Engine, sorts: seq<Sort>): seq<string> {
    seq(|sorts|, i requires 0 <= i < |sorts| => SortText(e, sorts[i]))
  }

  function OrderText(e: Engine, sorts: seq<Sort>): string {
    if sorts == [] then "" else " ORDER BY " + Join(SortTexts(e, sorts), ", ")
  }

  function TableText(e: Engine, source: Source): string {
    SqlDump.QuoteIdentifier(e, source.schema) + "." + SqlDump.QuoteIdentifier(e, source.name)
  }

  function SelectText(e: Engine, selected: seq<string>): string {
    "SELECT " + Join(SqlDump.QuoteIdentifiers(e, selected), ", ")
  }

  /** Everything between the selected columns and the page window. */
  function FromParts(e: Engine, source: Source, clauses: seq<Clause>, sorts: seq<Sort>): seq<Part> {
    [Fixed(" FROM "), Fixed(TableText(e, source))] + WhereParts(e, clauses) + [Fixed(OrderText(e, sorts))]
  }

  const WINDOW: seq<Part> := [Fixed(" LIMIT "), Hole, Fixed(" OFFSET "), Hole]

  function QueryParts(e: Engine, source: Source, selected: seq<string>, clauses: seq<Clause>, sorts: seq<Sort>): seq<Part> {
    [Fixed(SelectText(e, selected))] + FromParts(e, source, clauses, sorts) + WINDOW
  }

  datatype Query = Query(parts: seq<Part>, parameters: seq<Param>)

  predicate ValidWindow(request: Request) { 1 <= request.limit <= MAX_PAGE_SIZE }

  predicate ValidSort(request: Request, source: Source) { forall s | s in request.sort :: s.column in source.kinds }

  /** `buildPostgresqlDataQuery` and `buildMysqlDataQuery`; nothing for an invalid request. */
  function DataQueryOf(e: Engine, source: Source, request: Request, primary: seq<string>): Option<Query> {
    if !ValidWindow(request) then None
    else match WhereClauses(request, source)
      case None => None
      case Some((clauses, params)) =>
        if !ValidSort(request, source) then None
        else
          Some(Query(QueryParts(e, source, Selected(request, source), clauses, CompleteSorts(request.sort, primary)),
                     params + [Count(request.limit + 1), Count(request.offset)]))
  }

  /** The builder: clauses are returned, parameters are pushed. */
  class Builder {
    var parameters: seq<Param>

    constructor ()
      ensures parameters == []
    {
      parameters := [];
    }

    method PushFilter(f: Filter, kind: Kind) returns (clause: Option<Clause>)
      modifies this
      ensures match FilterClause(f, kind)
        case None => clause == None && parameters == old(parameters)
        case Some((c, params)) => clause == Some(c) && parameters == old(parameters) + params
    {
      if !AllowedOperator(kind, f.operator) {
        return None;
      }
      if f.operator == IsNull || f.operator == IsNotNull {
        return Some(NullTest(f.column, f.operator == IsNotNull));
      }
      if f.operator == In {
        if f.values == [] {
          return None;
        }
        parameters := parameters + Bounds(f.values);
        return Some(InList(f.column, |f.values|));
      }
      if f.value == None {
        return None;
      }
      if IsLikeOperator(f.operator) {
        parameters := parameters + [Bound(Like.Pattern(LikeOperator(f.operator), f.value.value))];
        return Some(LikeTest(f.column));
      }
      parameters := parameters + [Bound(f.value.value)];
      return Some(Compare(f.column, f.operator));
    }

    method Build(e: Engine, source: Source, request: Request, primary: seq<string>) returns (query: Option<Query>)
      requires parameters == []
      modifies this
      ensures query == DataQueryOf(e, source, request, primary)
    {
      hide SearchParams, SearchClauses, FilterClause, QueryParts, CompleteSorts, Searchable, Trim, ValidSelection;
      if !ValidWindow(request) {
        return None;
      }
      var selected := Selected(request, source);
      if !ValidSelection(selected, source.kinds) {
        return None;
      }
      var predicates: seq<Clause> := [];
      var filters := request.filters;
      assert filters[0..] == filters;
      if FilterClauses(filters, source.kinds).Some? {
        assert [] + FilterClauses(filters, source.kinds).value.0 == FilterClauses(filters, source.kinds).value.0;
        assert [] + FilterClauses(filters, source.kinds).value.1 == FilterClauses(filters, source.kinds).value.1;
      }
      for i := 0 to |filters|
        invariant match FilterClauses(filters[i..], source.kinds)
          case None => FilterClauses(filters, source.kinds) == None
          case Some((clauses, params)) => FilterClauses(filters, source.kinds) == Some((predicates + clauses, parameters + params))
      {
        assert filters[i..][1..] == filters[i + 1..];
        var filter := filters[i];
        if filter.column !in source.kinds {
          return None;
        }
        ghost var before := parameters;
        var clause := PushFilter(filter, source.kinds[filter.column]);
        if clause == None {
          return None;
        }
        ghost var later := FilterClauses(filters[i + 1..], source.kinds);
        if later.Some? {
          Assoc(predicates, [clause.value], later.value.0);
          Assoc(before, FilterClause(filter, source.kinds[filter.column]).value.1, later.value.1);
        }
        predicates := predicates + [clause.value];
      }
      assert filters[|filters|..] == [] && predicates + [] == predicates && parameters + [] == parameters;
      var search := Trim(request.search);
      var searchable := Searchable(selected, source.kinds);
      predicates := predicates + SearchClauses(search, searchable);
      parameters := parameters + SearchParams(search, searchable);
      var sorts := BuildSorts(request.sort, primary, source.kinds.Keys);
      if sorts == None {
        return None;
      }
      ghost var params := parameters;
      parameters := parameters + [Count(request.limit + 1), Count(request.offset)];
      return Some(Query(QueryParts(e, source, selected, predicates, sorts.value), parameters));
    }
  }
}
