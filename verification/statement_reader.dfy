/** A whole page query read back: the statement the server is asked to run. */
module StatementReader {
  import opened Text
  import opened DataPaging
  import opened DataQuery
  import opened QueryBinding
  import opened QueryMeaning
  import opened QueryText
  import opened QueryReader
  import SqlDump
  import SqlLexer

  type Engine = SqlLexer.Engine

  datatype Statement = Statement(selected: seq<string>, schema: string, name: string, conditions: seq<Condition>,
                                 sorts: seq<Sort>, limit: Param, offset: Param)

  /** What comes after the select list. */
  datatype Relation = Relation(schema: string, name: string, tail: Tail)

  datatype Tail = Tail(conditions: seq<Condition>, ending: Ending)

  datatype Ending = Ending(sorts: seq<Sort>, window: (Param, Param))

  // ---- Reading ----

  function ReadDirection(s: Symbols): (r: Option<(bool, Symbols)>)
    ensures r.Some? ==> |r.value.1| < |s|
  {
    if Starts(s, " DESC") then Some((true, s[5..])) else if Starts(s, " ASC") then Some((false, s[4..])) else None
  }

  function ReadSorts(e: Engine, s: Symbols): Option<(seq<Sort>, Symbols)>
    decreases |s|
  {
    match ReadName(e, s)
    case None => None
    case Some((column, t)) =>
      match ReadDirection(t)
      case None => None
      case Some((descending, u)) =>
        match After(u, ", ")
        case None => Some(([Sort(column, descending)], u))
        case Some(v) =>
          match ReadSorts(e, v)
          case None => None
          case Some((sorts, rest)) => Some(([Sort(column, descending)] + sorts, rest))
  }

  function ReadWindow(s: Symbols): Option<(Param, Param)> {
    match After(s, " LIMIT ")
    case None => None
    case Some(t) =>
      match ReadValue(t)
      case None => None
      case Some((limit, u)) =>
        match After(u, " OFFSET ")
        case None => None
        case Some(v) =>
          match ReadValue(v)
          case None => None
          case Some((offset, rest)) => if rest == [] then Some((limit, offset)) else None
  }

  function ReadEnding(e: Engine, s: Symbols): Option<Ending> {
    match After(s, " ORDER BY ")
    case None =>
      (match ReadWindow(s)
       case None => None
       case Some(window) => Some(Ending([], window)))
    case Some(t) =>
      match ReadSorts(e, t)
      case None => None
      case Some((sorts, rest)) =>
        match ReadWindow(rest)
        case None => None
        case Some(window) => Some(Ending(sorts, window))
  }

  function ReadTail(e: Engine, s: Symbols): Option<Tail> {
    match After(s, " WHERE ")
    case None =>
      (match ReadEnding(e, s)
       case None => None
       case Some(ending) => Some(Tail([], ending)))
    case Some(t) =>
      match ReadConditions(e, t)
      case None => None
      case Some((conditions, rest)) =>
        match ReadEnding(e, rest)
        case None => None
        case Some(ending) => Some(Tail(conditions, ending))
  }

  function ReadFrom(e: Engine, s: Symbols): Option<Relation> {
    match After(s, " FROM ")
    case None => None
    case Some(t) =>
      match ReadName(e, t)
      case None => None
      case Some((schema, u)) =>
        match After(u, ".")
        case None => None
        case Some(v) =>
          match ReadName(e, v)
          case None => None
          case Some((name, rest)) =>
            match ReadTail(e, rest)
            case None => None
            case Some(tail) => Some(Relation(schema, name, tail))
  }

  function ReadStatement(e: Engine, s: Symbols): Option<Statement> {
    match After(s, "SELECT ")
    case None => None
    case Some(t) =>
      match ReadNames(e, t)
      case None => None
      case Some((selected, u)) =>
        match ReadFrom(e, u)
        case None => None
        case Some(relation) =>
          Some(Statement(selected, relation.schema, relation.name, relation.tail.conditions,
                         relation.tail.ending.sorts, relation.tail.ending.window.0, relation.tail.ending.window.1))
  }

  // ---- Reading back ----

  /** The window as the server receives it. */
  lemma WindowBack(request: Request)
    ensures ReadWindow(WindowSymbols(request)) == Some((Count(request.limit + 1), Count(request.offset)))
  {
    hide Letters, After, ReadValue;
    var limit, offset := Count(request.limit + 1), Count(request.offset);
    var v: Symbols := [Value(offset)];
    assert v + [] == v;
    var u := Letters(" OFFSET ") + v;
    assert WindowSymbols(request) == Letters(" LIMIT ") + ([Value(limit)] + u);
    StartsOwn(" LIMIT ", [Value(limit)] + u);
    ValueBack(limit, u);
    StartsOwn(" OFFSET ", v);
    ValueBack(offset, []);
  }

  lemma WindowIsWindow(request: Request)
    ensures exists rest :: WindowSymbols(request) == Letters(" LIMIT ") + rest
  {
    hide Letters;
    var rest := [Value(Count(request.limit + 1))] + Letters(" OFFSET ") + [Value(Count(request.offset))];
    assert WindowSymbols(request) == Letters(" LIMIT ") + rest;
  }

  lemma DirectionBack(descending: bool, rest: Symbols)
    ensures ReadDirection(Letters(if descending then " DESC" else " ASC") + rest) == Some((descending, rest))
  {
    hide Letters, Starts, After;
    var text := if descending then " DESC" else " ASC";
    StartsOwn(text, rest);
    AfterIs(Letters(text) + rest, text, rest);
    if !descending {
      Differs(" ASC", " DESC", 1, rest);
    }
  }

  lemma SortBack(e: Engine, s: Sort, rest: Symbols)
    ensures var t := Letters(if s.descending then " DESC" else " ASC") + rest;
      && ReadName(e, Letters(SortText(e, s)) + rest) == Some((s.column, t))
      && ReadDirection(t) == Some((s.descending, rest))
  {
    hide ReadName, ReadDirection, SqlDump.QuoteIdentifier;
    var direction := if s.descending then " DESC" else " ASC";
    var name := SqlDump.QuoteIdentifier(e, s.column);
    LettersAppend(name, direction);
    Assoc(Letters(name), Letters(direction), rest);
    var t := Letters(direction) + rest;
    assert t[0] == Letter(' ');
    NameBack(e, s.column, t);
    DirectionBack(s.descending, rest);
  }

  lemma {:induction false} SortsBack(e: Engine, sorts: seq<Sort>, rest: Symbols)
    requires sorts != [] && Without(rest, ',')
    ensures ReadSorts(e, Letters(Join(SortTexts(e, sorts), ", ")) + rest) == Some((sorts, rest))
  {
    hide ReadName, ReadDirection, After, Letters, SortText;
    var texts := SortTexts(e, sorts);
    assert texts[0] == SortText(e, sorts[0]) && texts[1..] == SortTexts(e, sorts[1..]);
    if |sorts| == 1 {
      assert Join(texts, ", ") == texts[0];
      SortBack(e, sorts[0], rest);
      NotStarted(rest, ", ");
      assert sorts == [sorts[0]];
    } else {
      var u := Letters(Join(texts[1..], ", ")) + rest;
      SortsBack(e, sorts[1..], rest);
      ListSplits(texts[0], ", ", Join(texts[1..], ", "), rest);
      SortBack(e, sorts[0], Letters(", ") + u);
      StartsOwn(", ", u);
      assert sorts == [sorts[0]] + sorts[1..];
    }
  }

  /** The order and the window as the server receives them. */
  function EndingSymbols(e: Engine, sorts: seq<Sort>, request: Request): Symbols {
    Letters(OrderText(e, sorts)) + WindowSymbols(request)
  }

  lemma EndingBack(e: Engine, sorts: seq<Sort>, request: Request)
    ensures ReadEnding(e, EndingSymbols(e, sorts, request))
         == Some(Ending(sorts, (Count(request.limit + 1), Count(request.offset))))
  {
    WindowBack(request);
    WindowIsWindow(request);
    var window := WindowSymbols(request);
    var rest :| window == Letters(" LIMIT ") + rest;
    WithoutComma(rest);
    hide Letters, After, ReadSorts, ReadWindow, WindowSymbols, SortTexts, Join, Without;
    if sorts == [] {
      NoLetters(window);
      Differs(" LIMIT ", " ORDER BY ", 1, rest);
    } else {
      var list := Join(SortTexts(e, sorts), ", ");
      LettersAppend(" ORDER BY ", list);
      Assoc(Letters(" ORDER BY "), Letters(list), window);
      StartsOwn(" ORDER BY ", Letters(list) + window);
      SortsBack(e, sorts, window);
    }
  }

  lemma WithoutComma(rest: Symbols)
    ensures Without(Letters(" LIMIT ") + rest, ',')
  {}

  lemma NoLetters(s: Symbols)
    ensures Letters("") + s == s
  {}

  /** The order or window follows the conditions, never another condition. */
  lemma EndingBegins(e: Engine, sorts: seq<Sort>, request: Request)
    ensures var s := EndingSymbols(e, sorts, request);
      NoAnd(s) && After(s, " WHERE ") == None && Without(s, SqlDump.IdentifierQuote(e))
  {
    WindowIsWindow(request);
    var window := WindowSymbols(request);
    var rest :| window == Letters(" LIMIT ") + rest;
    if sorts == [] {
      NoLetters(window);
      BlankFirst(e, " LIMIT ", rest);
      hide Letters, Starts;
      Differs(" LIMIT ", " AND ", 1, rest);
      Differs(" LIMIT ", " WHERE ", 1, rest);
    } else {
      var list := Join(SortTexts(e, sorts), ", ");
      LettersAppend(" ORDER BY ", list);
      Assoc(Letters(" ORDER BY "), Letters(list), window);
      BlankFirst(e, " ORDER BY ", Letters(list) + window);
      hide Letters, Starts, Join;
      Differs(" ORDER BY ", " AND ", 1, Letters(list) + window);
      Differs(" ORDER BY ", " WHERE ", 1, Letters(list) + window);
    }
  }

  lemma BlankFirst(e: Engine, text: string, rest: Symbols)
    requires text != "" && text[0] == ' '
    ensures Without(Letters(text) + rest, SqlDump.IdentifierQuote(e)) && Without(Letters(text) + rest, ',')
  {
    assert (Letters(text) + rest)[0] == Letter(' ');
  }

  function TailSymbols(e: Engine, conditions: seq<Condition>, sorts: seq<Sort>, request: Request): Symbols
    requires forall c | c in conditions :: Matched(c)
  {
    if conditions == [] then EndingSymbols(e, sorts, request)
    else Letters(" WHERE ") + (WhereSymbols(e, conditions) + EndingSymbols(e, sorts, request))
  }

  lemma TailBack(e: Engine, conditions: seq<Condition>, sorts: seq<Sort>, request: Request)
    requires forall c | c in conditions :: Matched(c) && Readable(c)
    ensures ReadTail(e, TailSymbols(e, conditions, sorts, request))
         == Some(Tail(conditions, Ending(sorts, (Count(request.limit + 1), Count(request.offset)))))
    ensures Without(TailSymbols(e, conditions, sorts, request), SqlDump.IdentifierQuote(e))
  {
    hide Letters, After, ReadConditions, ReadEnding, EndingSymbols, WhereSymbols, Without, NoAnd, Readable, Matched;
    var ending := EndingSymbols(e, sorts, request);
    EndingBegins(e, sorts, request);
    EndingBack(e, sorts, request);
    if conditions != [] {
      var t := WhereSymbols(e, conditions) + ending;
      ConditionsBack(e, conditions, ending);
      StartsOwn(" WHERE ", t);
      BlankFirst(e, " WHERE ", t);
    }
  }

  lemma TableSplits(e: Engine, source: Source, rest: Symbols)
    ensures Letters(" FROM " + TableText(e, source)) + rest
         == Letters(" FROM ") + (Letters(SqlDump.QuoteIdentifier(e, source.schema))
            + (Letters(".") + (Letters(SqlDump.QuoteIdentifier(e, source.name)) + rest)))
  {
    var schema, name := SqlDump.QuoteIdentifier(e, source.schema), SqlDump.QuoteIdentifier(e, source.name);
    hide SqlDump.QuoteIdentifier;
    assert " FROM " + TableText(e, source) == " FROM " + schema + "." + name;
    LettersAppend(" FROM " + schema + ".", name);
    LettersAppend(" FROM " + schema, ".");
    LettersAppend(" FROM ", schema);
    hide Letters;
    var a, b, c, d := Letters(" FROM "), Letters(schema), Letters("."), Letters(name);
    assert a + b + c + d + rest == a + (b + (c + (d + rest)));
  }

  lemma FromBack(e: Engine, source: Source, conditions: seq<Condition>, sorts: seq<Sort>, request: Request)
    requires forall c | c in conditions :: Matched(c) && Readable(c)
    ensures ReadFrom(e, Letters(" FROM " + TableText(e, source)) + TailSymbols(e, conditions, sorts, request))
         == Some(Relation(source.schema, source.name,
              Tail(conditions, Ending(sorts, (Count(request.limit + 1), Count(request.offset))))))
  {
    var tail := TailSymbols(e, conditions, sorts, request);
    TailBack(e, conditions, sorts, request);
    TableSplits(e, source, tail);
    DotFirst(e, Letters(SqlDump.QuoteIdentifier(e, source.name)) + tail);
    hide Letters, After, ReadName, ReadTail, TailSymbols, TableText, SqlDump.QuoteIdentifier, Without, Readable, Matched;
    var v := Letters(SqlDump.QuoteIdentifier(e, source.name)) + tail;
    var t := Letters(SqlDump.QuoteIdentifier(e, source.schema)) + (Letters(".") + v);
    StartsOwn(" FROM ", t);
    NameBack(e, source.schema, Letters(".") + v);
    StartsOwn(".", v);
    NameBack(e, source.name, tail);
  }

  lemma DotFirst(e: Engine, rest: Symbols)
    ensures Without(Letters(".") + rest, SqlDump.IdentifierQuote(e))
  {}

  lemma SelectBack(e: Engine, selected: seq<string>, from: Symbols)
    requires Without(from, SqlDump.IdentifierQuote(e)) && Without(from, ',')
    ensures var s := Letters(SelectText(e, selected)) + from;
      After(s, "SELECT ") == Some(Letters(Join(SqlDump.QuoteIdentifiers(e, selected), ", ")) + from)
    ensures ReadNames(e, Letters(Join(SqlDump.QuoteIdentifiers(e, selected), ", ")) + from)
         == if selected == [] then None else Some((selected, from))
  {
    hide After, ReadNames, SqlDump.QuoteIdentifiers, Join, Letters, Without;
    var list := Join(SqlDump.QuoteIdentifiers(e, selected), ", ");
    LettersAppend("SELECT ", list);
    Assoc(Letters("SELECT "), Letters(list), from);
    StartsOwn("SELECT ", Letters(list) + from);
    if selected == [] {
      EmptyList(e, from);
    } else {
      NamesBack(e, selected, from);
    }
  }

  lemma EmptyList(e: Engine, from: Symbols)
    requires Without(from, SqlDump.IdentifierQuote(e))
    ensures ReadNames(e, Letters(Join(SqlDump.QuoteIdentifiers(e, []), ", ")) + from) == None
  {
    assert Join(SqlDump.QuoteIdentifiers(e, []), ", ") == "";
    NoLetters(from);
  }

  lemma FilterReadable(f: Filter, kind: Kind)
    requires FilterClause(f, kind).Some?
    ensures Readable(Condition(FilterClause(f, kind).value.0, FilterClause(f, kind).value.1))
  {}

  lemma {:induction false} FiltersReadable(filters: seq<Filter>, kinds: map<string, Kind>)
    requires FilterClauses(filters, kinds).Some?
    ensures forall c | c in OwnConditions(filters, kinds) :: Matched(c) && Readable(c)
  {
    if filters != [] {
      FilterReadable(filters[0], kinds[filters[0].column]);
      FiltersReadable(filters[1..], kinds);
    }
  }

  lemma ConditionsReadable(request: Request, source: Source)
    requires FilterClauses(request.filters, source.kinds).Some?
    ensures forall c | c in Conditions(request, source) :: Matched(c) && Readable(c)
  {
    FiltersReadable(request.filters, source.kinds);
  }

  lemma ReceivedSplits(e: Engine, source: Source, conditions: seq<Condition>, sorts: seq<Sort>, request: Request)
    requires forall c | c in conditions :: Matched(c)
    ensures FromSymbols(e, source, conditions, sorts) + WindowSymbols(request)
         == Letters(" FROM " + TableText(e, source)) + TailSymbols(e, conditions, sorts, request)
  {
    hide Letters, TableText, WhereSymbols, WindowSymbols, OrderText, Matched;
    var a, o, w := Letters(" FROM " + TableText(e, source)), Letters(OrderText(e, sorts)), WindowSymbols(request);
    if conditions == [] {
      assert a + [] + o + w == a + (o + w);
    } else {
      var b, c := Letters(" WHERE "), WhereSymbols(e, conditions);
      assert a + (b + c) + o + w == a + (b + (c + (o + w)));
    }
  }

  /**
   * The query built from a request, received with its values and read by the rules of quoted names,
   * is the statement asked for: the selected columns, the table, every filter and the search with
   * their own values, the completed order and the window. Only a table without columns reads as none.
   */
  lemma QueryReadsBack(e: Engine, source: Source, request: Request, primary: seq<string>)
    requires DataQueryOf(e, source, request, primary).Some?
    ensures var query := DataQueryOf(e, source, request, primary).value;
      var selected := Selected(request, source);
      && HoleCount(query.parts) == |query.parameters|
      && ReadStatement(e, Fill(query.parts, query.parameters))
         == if selected == [] then None
            else Some(Statement(selected, source.schema, source.name, Conditions(request, source),
                                CompleteSorts(request.sort, primary), Count(request.limit + 1), Count(request.offset)))
  {
    var selected := Selected(request, source);
    var sorts := CompleteSorts(request.sort, primary);
    var conditions := Conditions(request, source);
    ServerReceivesEveryCondition(e, source, request, primary);
    ConditionsReadable(request, source);
    ReceivedSplits(e, source, conditions, sorts, request);
    FromBack(e, source, conditions, sorts, request);
    var from := Letters(" FROM " + TableText(e, source)) + TailSymbols(e, conditions, sorts, request);
    assert from[0] == Letter(' ');
    assert Without(from, SqlDump.IdentifierQuote(e)) && Without(from, ',');
    hide DataQueryOf, Conditions, CompleteSorts, Selected, Fill, HoleCount, Letters, FromSymbols, WindowSymbols, TailSymbols,
      TableText, SelectText, ReadFrom, ReadNames, After, Readable, Matched, Execute, Render, NamesFree, WhereClauses, Without;
    Assoc(Letters(SelectText(e, selected)), FromSymbols(e, source, conditions, sorts), WindowSymbols(request));
    SelectBack(e, selected, from);
  }
}
