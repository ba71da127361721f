/** The text of a built query: delivery through its `?` marks, and the count query cut out of it. */
module QueryText {
  import opened Text
  import opened DataPaging
  import opened DataQuery
  import opened QueryBinding
  import opened QueryMeaning
  import SqlLexer
  import SqlDump

  type Engine = SqlLexer.Engine

  // ---- Delivery ----

  lemma {:induction false} ReplaceAllMembers(s: string, q: char, c: char)
    ensures c in ReplaceAll(s, q, [q, q]) <==> c in s
  {
    if s != "" {
      ReplaceAllMembers(s[1..], q, c);
      assert s == [s[0]] + s[1..];
    }
  }

  lemma MarkInQuoted(e: Engine, name: string)
    ensures '?' in SqlDump.QuoteIdentifier(e, name) <==> '?' in name
  {
    ReplaceAllMembers(name, SqlDump.IdentifierQuote(e), '?');
  }

  lemma {:induction false} MarkInJoin(texts: seq<string>, separator: string)
    requires '?' !in separator
    ensures '?' in Join(texts, separator) <==> exists t | t in texts :: '?' in t
  {
    if |texts| > 1 {
      MarkInJoin(texts[1..], separator);
      assert texts == [texts[0]] + texts[1..];
    } else if |texts| == 1 {
      assert texts == [texts[0]];
    }
  }

  lemma {:induction false} QuoteIdentifiersAt(e: Engine, names: seq<string>)
    ensures |SqlDump.QuoteIdentifiers(e, names)| == |names|
    ensures forall i | 0 <= i < |names| :: SqlDump.QuoteIdentifiers(e, names)[i] == SqlDump.QuoteIdentifier(e, names[i])
  {
    if names != [] {
      QuoteIdentifiersAt(e, names[1..]);
    }
  }

  lemma MarkInSelect(e: Engine, selected: seq<string>)
    ensures '?' in SelectText(e, selected) <==> exists name | name in selected :: '?' in name
  {
    hide SqlDump.QuoteIdentifier, SqlDump.QuoteIdentifiers, Join;
    var texts := SqlDump.QuoteIdentifiers(e, selected);
    MarkInJoin(texts, ", ");
    QuoteIdentifiersAt(e, selected);
    forall i | 0 <= i < |selected|
      ensures '?' in texts[i] <==> '?' in selected[i]
    {
      MarkInQuoted(e, selected[i]);
    }
  }

  lemma MarkInOrder(e: Engine, sorts: seq<Sort>)
    ensures '?' in OrderText(e, sorts) <==> exists s | s in sorts :: '?' in s.column
  {
    if sorts != [] {
      hide SqlDump.QuoteIdentifier, Join;
      var texts := SortTexts(e, sorts);
      MarkInJoin(texts, ", ");
      forall i | 0 <= i < |sorts|
        ensures '?' in texts[i] <==> '?' in sorts[i].column
      {
        MarkInQuoted(e, sorts[i].column);
      }
    }
  }

  lemma MarkInTable(e: Engine, source: Source)
    ensures '?' in TableText(e, source) <==> '?' in source.schema || '?' in source.name
  {
    MarkInQuoted(e, source.schema);
    MarkInQuoted(e, source.name);
  }

  function ClauseColumns(c: Clause): seq<string> {
    if c.AnyLike? then c.columns else [c.column]
  }

  ghost predicate NoMark(names: seq<string>) { forall name | name in names :: '?' !in name }

  lemma PlainAppend(a: seq<Part>, b: seq<Part>)
    ensures Plain(a + b) <==> Plain(a) && Plain(b)
  {}

  lemma PlainOne(text: string)
    ensures Plain([Fixed(text)]) <==> '?' !in text
  {
    assert Fixed(text) in [Fixed(text)];
  }

  lemma {:induction false} PlainHoles(n: nat)
    ensures Plain(HoleList(n))
  {
    if n > 1 {
      PlainHoles(n - 1);
      PlainAppend([Hole, Fixed(", ")], HoleList(n - 1));
    }
  }

  lemma PlainLike(e: Engine, column: string)
    ensures Plain(LikeParts(e, column)) <==> '?' !in column
  {
    MarkInQuoted(e, column);
    hide SqlDump.QuoteIdentifier;
    PlainOne(SqlDump.QuoteIdentifier(e, column));
    var rest := [Fixed(LikeText(e)), Hole, Fixed(EscapeText(e))];
    assert LikeParts(e, column) == [Fixed(SqlDump.QuoteIdentifier(e, column))] + rest;
    PlainAppend([Fixed(SqlDump.QuoteIdentifier(e, column))], rest);
  }

  lemma {:induction false} PlainAnyLike(e: Engine, columns: seq<string>)
    ensures Plain(AnyLikeParts(e, columns)) <==> NoMark(columns)
  {
    if columns != [] {
      PlainLike(e, columns[0]);
      hide LikeParts;
      assert columns == [columns[0]] + columns[1..];
      if |columns| > 1 {
        PlainAnyLike(e, columns[1..]);
        PlainOne(" OR ");
        PlainAppend(LikeParts(e, columns[0]), [Fixed(" OR ")]);
        PlainAppend(LikeParts(e, columns[0]) + [Fixed(" OR ")], AnyLikeParts(e, columns[1..]));
      }
    }
  }

  lemma PlainQuotedThen(e: Engine, column: string, rest: seq<Part>)
    requires Plain(rest)
    ensures Plain([Quoted(e, column)] + rest) <==> '?' !in column
  {
    MarkInQuoted(e, column);
    PlainOne(SqlDump.QuoteIdentifier(e, column));
    PlainAppend([Quoted(e, column)], rest);
  }

  lemma PlainThen(text: string, rest: seq<Part>)
    requires '?' !in text && Plain(rest)
    ensures Plain([Fixed(text)] + rest)
  {
    PlainOne(text);
    PlainAppend([Fixed(text)], rest);
  }

  lemma PlainHole()
    ensures Plain([Hole]) && Plain([])
  {}

  lemma OneName(name: string)
    ensures NoMark([name]) <==> '?' !in name
  {
    assert name in [name];
  }

  lemma PlainNullTest(e: Engine, column: string, negated: bool)
    ensures Plain(ClauseParts(e, NullTest(column, negated))) <==> '?' !in column
  {
    hide Quoted, Plain;
    var text := if negated then " IS NOT NULL" else " IS NULL";
    PlainOne(text);
    PlainQuotedThen(e, column, [Fixed(text)]);
    assert ClauseParts(e, NullTest(column, negated)) == [Quoted(e, column)] + [Fixed(text)];
  }

  lemma PlainInList(e: Engine, column: string, count: nat)
    ensures Plain(ClauseParts(e, InList(column, count))) <==> '?' !in column
  {
    hide Quoted, Plain, HoleList;
    PlainHoles(count);
    PlainOne(")");
    PlainAppend(HoleList(count), [Fixed(")")]);
    var rest := HoleList(count) + [Fixed(")")];
    PlainThen(" IN (", rest);
    PlainQuotedThen(e, column, [Fixed(" IN (")] + rest);
    assert ClauseParts(e, InList(column, count)) == [Quoted(e, column)] + ([Fixed(" IN (")] + rest);
  }

  lemma PlainCompare(e: Engine, column: string, op: Operator)
    ensures Plain(ClauseParts(e, Compare(column, op))) <==> '?' !in column
  {
    hide Quoted, Plain;
    PlainHole();
    var text := " " + OperatorText(op) + " ";
    PlainThen(text, [Hole]);
    PlainQuotedThen(e, column, [Fixed(text)] + [Hole]);
    assert ClauseParts(e, Compare(column, op)) == [Quoted(e, column)] + ([Fixed(text)] + [Hole]);
  }

  lemma PlainSearch(e: Engine, columns: seq<string>)
    ensures Plain(ClauseParts(e, AnyLike(columns))) <==> NoMark(columns)
  {
    hide Plain, NoMark, AnyLikeParts;
    PlainAnyLike(e, columns);
    PlainOne("(");
    PlainOne(")");
    PlainAppend([Fixed("(")], AnyLikeParts(e, columns));
    PlainAppend([Fixed("(")] + AnyLikeParts(e, columns), [Fixed(")")]);
  }

  lemma PlainClause(e: Engine, c: Clause)
    ensures Plain(ClauseParts(e, c)) <==> NoMark(ClauseColumns(c))
  {
    hide Plain, NoMark;
    match c {
      case NullTest(column, negated) =>
        OneName(column);
        PlainNullTest(e, column, negated);
      case InList(column, count) =>
        OneName(column);
        PlainInList(e, column, count);
      case LikeTest(column) =>
        OneName(column);
        PlainLike(e, column);
      case Compare(column, op) =>
        OneName(column);
        PlainCompare(e, column, op);
      case AnyLike(columns) =>
        PlainSearch(e, columns);
    }
  }

  lemma {:induction false} PlainConjunction(e: Engine, clauses: seq<Clause>)
    ensures Plain(ConjunctionParts(e, clauses)) <==> forall c | c in clauses :: NoMark(ClauseColumns(c))
  {
    if clauses != [] {
      PlainClause(e, clauses[0]);
      hide ClauseParts, NoMark, ClauseColumns, Plain;
      assert clauses == [clauses[0]] + clauses[1..];
      if |clauses| > 1 {
        PlainConjunction(e, clauses[1..]);
        PlainOne(" AND ");
        PlainAppend(ClauseParts(e, clauses[0]), [Fixed(" AND ")]);
        PlainAppend(ClauseParts(e, clauses[0]) + [Fixed(" AND ")], ConjunctionParts(e, clauses[1..]));
      }
    } else {
      assert ConjunctionParts(e, clauses) == [];
    }
  }

  /** No name the query mentions has a `?`. */
  ghost predicate NamesFree(source: Source, selected: seq<string>, clauses: seq<Clause>, sorts: seq<Sort>) {
    && '?' !in source.schema && '?' !in source.name
    && NoMark(selected)
    && (forall c | c in clauses :: NoMark(ClauseColumns(c)))
    && (forall s | s in sorts :: '?' !in s.column)
  }

  lemma PlainFrom(e: Engine, source: Source, clauses: seq<Clause>, sorts: seq<Sort>)
    ensures Plain(FromParts(e, source, clauses, sorts)) <==> NamesFree(source, [], clauses, sorts)
  {
    MarkInTable(e, source);
    MarkInOrder(e, sorts);
    PlainConjunction(e, clauses);
    hide ConjunctionParts, OrderText, TableText, NoMark, ClauseColumns;
    NoNames();
    var from := [Fixed(" FROM "), Fixed(TableText(e, source))];
    assert from == [Fixed(" FROM ")] + [Fixed(TableText(e, source))];
    PlainOne(" FROM ");
    PlainOne(TableText(e, source));
    PlainOne(" WHERE ");
    PlainOne(OrderText(e, sorts));
    PlainAppend([Fixed(" FROM ")], [Fixed(TableText(e, source))]);
    PlainAppend([Fixed(" WHERE ")], ConjunctionParts(e, clauses));
    hide Plain;
    PlainHole();
    PlainAppend(from, WhereParts(e, clauses));
    PlainAppend(from + WhereParts(e, clauses), [Fixed(OrderText(e, sorts))]);
  }

  lemma NoNames()
    ensures NoMark([])
  {}

  lemma PlainQuery(e: Engine, source: Source, selected: seq<string>, clauses: seq<Clause>, sorts: seq<Sort>)
    ensures Plain(QueryParts(e, source, selected, clauses, sorts)) <==> NamesFree(source, selected, clauses, sorts)
  {
    MarkInSelect(e, selected);
    PlainFrom(e, source, clauses, sorts);
    PlainOne(SelectText(e, selected));
    assert Plain(WINDOW);
    hide FromParts, SelectText, Plain;
    PlainAppend([Fixed(SelectText(e, selected))], FromParts(e, source, clauses, sorts));
    PlainAppend([Fixed(SelectText(e, selected))] + FromParts(e, source, clauses, sorts), WINDOW);
  }

  /** What the server should receive between the selected columns and the window. */
  function FromSymbols(e: Engine, source: Source, conditions: seq<Condition>, sorts: seq<Sort>): seq<Symbol>
    requires forall c | c in conditions :: Matched(c)
  {
    Letters(" FROM " + TableText(e, source))
    + (if conditions == [] then [] else Letters(" WHERE ") + WhereSymbols(e, conditions))
    + Letters(OrderText(e, sorts))
  }

  function WindowSymbols(request: Request): seq<Symbol> {
    Letters(" LIMIT ") + [Value(Count(request.limit + 1))] + Letters(" OFFSET ") + [Value(Count(request.offset))]
  }

  lemma LettersAppend(s: string, t: string)
    ensures Letters(s + t) == Letters(s) + Letters(t)
  {}

  lemma FillFrom(e: Engine, source: Source, clauses: seq<Clause>, params: seq<Param>, sorts: seq<Sort>)
    requires TotalHoles(clauses) == |params|
    ensures HoleCount(FromParts(e, source, clauses, sorts)) == |params|
    ensures forall c | c in Deal(clauses, params) :: Matched(c)
    ensures Fill(FromParts(e, source, clauses, sorts), params) == FromSymbols(e, source, Deal(clauses, params), sorts)
  {
    hide ConjunctionParts, OrderText, TableText, Letters, ConditionSymbols, WhereSymbols, Matched, Fill, HoleCount;
    ConjunctionFills(e, clauses, params);
    DealMatches(clauses, params);
    var table := TableText(e, source);
    FillFixed(" FROM ");
    FillFixed(table);
    FillAppend([Fixed(" FROM ")], [], [Fixed(table)], []);
    LettersAppend(" FROM ", table);
    var from := [Fixed(" FROM ")] + [Fixed(table)];
    assert from == [Fixed(" FROM "), Fixed(table)];
    var none: seq<Param> := [];
    assert none + none == none;
    assert Fill(from, none) == Letters(" FROM " + table);
    assert [] + params == params && params + [] == params;
    var where := WhereParts(e, clauses);
    if clauses != [] {
      FillFixed(" WHERE ");
      FillAppend([Fixed(" WHERE ")], [], ConjunctionParts(e, clauses), params);
    } else {
      FillNothing();
    }
    FillAppend(from, [], where, params);
    FillFixed(OrderText(e, sorts));
    FillAppend(from + where, params, [Fixed(OrderText(e, sorts))], []);
  }

  lemma FillNothing()
    ensures HoleCount([]) == 0 && Fill([], []) == []
  {}

  lemma FillWindow(limit: Param, offset: Param)
    ensures HoleCount(WINDOW) == 2
    ensures Fill(WINDOW, [limit, offset]) == Letters(" LIMIT ") + [Value(limit)] + Letters(" OFFSET ") + [Value(offset)]
  {
    hide Letters;
    var one, two := [Fixed(" LIMIT "), Hole], [Fixed(" OFFSET "), Hole];
    assert WINDOW == one + two;
    FillPair(" LIMIT ", limit);
    FillPair(" OFFSET ", offset);
    FillAppend(one, [limit], two, [offset]);
    assert [limit] + [offset] == [limit, offset];
    Assoc(Letters(" LIMIT ") + [Value(limit)], Letters(" OFFSET "), [Value(offset)]);
  }

  lemma FillPair(text: string, param: Param)
    ensures HoleCount([Fixed(text), Hole]) == 1
    ensures Fill([Fixed(text), Hole], [param]) == Letters(text) + [Value(param)]
  {
    var parts := [Fixed(text), Hole];
    assert parts[1..] == [Hole] && parts[1..][1..] == [] && HoleCount(parts[1..]) == 1;
    assert [param][1..] == [];
    assert Fill(parts[1..], [param]) == [Value(param)];
  }

  /**
   * A built query has as many placeholders as parameters, and every filter, the search and the window
   * get their own. A driver that cuts the text at every `?`, as that of PostgreSQL does, executes it
   * if and only if none of its names has a `?`, and then delivers the same.
   */
  lemma ServerReceivesEveryCondition(e: Engine, source: Source, request: Request, primary: seq<string>)
    requires DataQueryOf(e, source, request, primary).Some?
    ensures var query := DataQueryOf(e, source, request, primary).value;
      var selected := Selected(request, source);
      var sorts := CompleteSorts(request.sort, primary);
      && HoleCount(query.parts) == |query.parameters|
      && (forall c | c in Conditions(request, source) :: Matched(c))
      && Fill(query.parts, query.parameters)
         == Letters(SelectText(e, selected)) + FromSymbols(e, source, Conditions(request, source), sorts) + WindowSymbols(request)
      && Execute(Render(query.parts), query.parameters)
         == if NamesFree(source, selected, WhereClauses(request, source).value.0, sorts)
            then Some(Fill(query.parts, query.parameters)) else None
  {
    hide FromParts, SelectText, Fill, Letters, FromSymbols, Matched, NamesFree, Execute, Render, HoleCount, Deal,
      WhereClauses, Plain, WINDOW, Conditions;
    var query := DataQueryOf(e, source, request, primary).value;
    var selected := Selected(request, source);
    var sorts := CompleteSorts(request.sort, primary);
    var (clauses, params) := WhereClauses(request, source).value;
    Dealt(source, request);
    FillFrom(e, source, clauses, params, sorts);
    FillFixed(SelectText(e, selected));
    var select := [Fixed(SelectText(e, selected))];
    var from := FromParts(e, source, clauses, sorts);
    var window := [Count(request.limit + 1), Count(request.offset)];
    FillAppend(select, [], from, params);
    assert [] + params == params;
    FillWindow(window[0], window[1]);
    FillAppend(select + from, params, WINDOW, window);
    PlainQuery(e, source, selected, clauses, sorts);
    DriverDelivers(query.parts, query.parameters);
  }

  lemma Dealt(source: Source, request: Request)
    requires WhereClauses(request, source).Some?
    ensures var (clauses, params) := WhereClauses(request, source).value;
      && FilterClauses(request.filters, source.kinds).Some?
      && TotalHoles(clauses) == |params|
      && Deal(clauses, params) == Conditions(request, source)
  {
    BindingPreservesMeaning(Server(c => c, (_, _, _, _) => true), source, request, _ => None);
  }
}
