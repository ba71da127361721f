/** The exact total of a page: a count query cut out of a data query's text. */
module CountQuery {
  import opened Text
  import opened DataPaging
  import opened DataQuery
  import opened QueryBinding
  import opened QueryMeaning
  import opened QueryText
  import SqlDump
  import Like = LikePatterns
  import SqlLexer

  type Engine = SqlLexer.Engine

  // ---- Searching text ----

  predicate OccursAt(text: string, pattern: string, i: int) {
    0 <= i && i + |pattern| <= |text| && text[i..i + |pattern|] == pattern
  }

  ghost predicate Occurs(text: string, pattern: string) { exists i :: OccursAt(text, pattern, i) }

  /** `indexOf`, from position `i` on. */
  function IndexFrom(text: string, pattern: string, i: nat): (r: int)
    ensures r == -1 || (i <= r && OccursAt(text, pattern, r))
    ensures forall j | i <= j && OccursAt(text, pattern, j) :: 0 <= r <= j
    decreases |text| - i
  {
    if i + |pattern| > |text| then -1
    else if OccursAt(text, pattern, i) then i
    else IndexFrom(text, pattern, i + 1)
  }

  /** `lastIndexOf`, from position `i` downwards. */
  function LastIndexFrom(text: string, pattern: string, i: int): (r: int)
    ensures r == -1 || (r <= i && OccursAt(text, pattern, r))
    ensures forall j | j <= i && OccursAt(text, pattern, j) :: j <= r
    decreases i + 1
  {
    if i < 0 then -1
    else if OccursAt(text, pattern, i) then i
    else LastIndexFrom(text, pattern, i - 1)
  }

  /** `slice` between two positions of the text. */
  function Slice(text: string, from: int, to: int): string {
    if 0 <= from <= to <= |text| then text[from..to] else ""
  }

  // ---- The count query ----

  /** The request the count is built from: all columns, no sort, the smallest window. */
  function CountRequest(source: Source, request: Request): Request {
    Request(source.columns, request.filters, request.search, [], 1, 0)
  }

  /** MySQL still completes the sort with the primary key here, PostgreSQL does not. */
  function CountPrimary(e: Engine, primary: seq<string>): seq<string> { if e == SqlLexer.Mysql then primary else [] }

  const COUNT := "SELECT COUNT(*) AS total"

  function CountText(text: string): string {
    COUNT + Slice(text, IndexFrom(text, " FROM ", 0), LastIndexFrom(text, " LIMIT ", |text|))
  }

  /** The statement and parameters that `total` executes. */
  function CountOf(e: Engine, source: Source, request: Request, primary: seq<string>): Option<(string, seq<Param>)> {
    match DataQueryOf(e, source, CountRequest(source, request), CountPrimary(e, primary))
    case None => None
    case Some(query) =>
      Some((CountText(Render(query.parts)), if |query.parameters| < 2 then [] else query.parameters[..|query.parameters| - 2]))
  }

  // ---- Where the text is cut ----

  lemma WindowText()
    ensures Render(WINDOW) == " LIMIT ? OFFSET ?"
  {
    assert WINDOW[1..][1..][1..][1..] == [];
    assert Render(WINDOW[1..][1..][1..]) == "?";
    assert Render(WINDOW[1..][1..]) == " OFFSET ?";
    assert Render(WINDOW[1..]) == "? OFFSET ?";
  }

  lemma OccurrenceReads(text: string, pattern: string, i: int)
    requires OccursAt(text, pattern, i)
    ensures forall j | i <= j < i + |pattern| :: text[j] == pattern[j - i]
  {
    forall j | i <= j < i + |pattern|
      ensures text[j] == pattern[j - i]
    {
      assert text[i..i + |pattern|][j - i] == text[j];
    }
  }

  /** The last `LIMIT` of a query text is that of its window. */
  lemma LastLimit(head: string)
    ensures var text := head + " LIMIT ? OFFSET ?"; LastIndexFrom(text, " LIMIT ", |text|) == |head|
  {
    hide LastIndexFrom;
    var tail, pattern := " LIMIT ? OFFSET ?", " LIMIT ";
    var text := head + tail;
    assert tail[..7] == pattern;
    assert text[|head|..|head| + 7] == tail[..7];
    assert OccursAt(text, pattern, |head|);
    assert forall k | 1 <= k <= 10 :: tail[k] == ' ' ==> tail[k + 1] != 'L';
    assert forall j | |head| <= j < |text| :: text[j] == tail[j - |head|];
    forall r | r > |head|
      ensures !OccursAt(text, pattern, r)
    {
      if OccursAt(text, pattern, r) {
        assert tail[r - |head|] == text[r] && tail[r - |head| + 1] == text[r + 1];
        OccurrenceReads(text, pattern, r);
      }
    }
  }

  /** A character the pattern does not have separates its occurrences. */
  lemma Separated(a: string, q: char, b: string, pattern: string)
    requires q !in pattern && pattern != ""
    ensures forall i | i <= |a| && OccursAt(a + [q] + b, pattern, i) :: OccursAt(a, pattern, i)
    ensures Occurs(a + [q] + b, pattern) <==> Occurs(a, pattern) || Occurs(b, pattern)
  {
    var text := a + [q] + b;
    var n := |pattern|;
    forall i | i <= |a| && OccursAt(text, pattern, i)
      ensures OccursAt(a, pattern, i)
    {
      assert text[|a|] == q;
      OccurrenceReads(text, pattern, i);
      assert forall j | i <= j < i + n :: text[j] != q;
      assert a[i..i + n] == text[i..i + n];
    }
    forall i | i > |a| && OccursAt(text, pattern, i)
      ensures OccursAt(b, pattern, i - |a| - 1)
    {
      assert b[i - |a| - 1..i - |a| - 1 + n] == text[i..i + n];
    }
    forall i | OccursAt(a, pattern, i)
      ensures OccursAt(text, pattern, i)
    {
      assert a[i..i + n] == text[i..i + n];
    }
    forall i | OccursAt(b, pattern, i)
      ensures OccursAt(text, pattern, i + |a| + 1)
    {
      assert b[i..i + n] == text[i + |a| + 1..i + |a| + 1 + n];
    }
  }

  lemma TooShort(text: string, pattern: string)
    requires |text| < |pattern|
    ensures !Occurs(text, pattern)
  {}

  lemma {:induction false} NoneToReplace(a: string, q: char)
    requires q !in a
    ensures ReplaceAll(a, q, [q, q]) == a
  {
    if a != "" {
      NoneToReplace(a[1..], q);
    }
  }

  /** Doubling a character leaves the occurrences of a pattern without it. */
  lemma {:induction false} DoublingKeeps(s: string, q: char, pattern: string)
    requires q !in pattern && pattern != ""
    ensures Occurs(ReplaceAll(s, q, [q, q]), pattern) <==> Occurs(s, pattern)
    decreases |s|
  {
    if q !in s {
      NoneToReplace(s, q);
    } else {
      var k :| 0 <= k < |s| && s[k] == q && q !in s[..k] by { FirstOf(s, q); }
      var a, b := s[..k], s[k + 1..];
      hide Occurs, ReplaceAll;
      assert s == a + [q] + b;
      DoublingKeeps(b, q, pattern);
      DoubledAt(a, q, b);
      Separated(a, q, b, pattern);
      DoubledOccurs(a, q, ReplaceAll(b, q, [q, q]), pattern);
    }
  }

  lemma DoubledAt(a: string, q: char, b: string)
    requires q !in a
    ensures ReplaceAll(a + [q] + b, q, [q, q]) == a + [q] + ([q] + ReplaceAll(b, q, [q, q]))
  {
    hide ReplaceAll;
    var rest := ReplaceAll(b, q, [q, q]);
    ReplaceAllAppend(a + [q], b, q, [q, q]);
    ReplaceAllAppend(a, [q], q, [q, q]);
    NoneToReplace(a, q);
    ReplaceOne(q);
    assert a + [q, q] + rest == a + [q] + ([q] + rest);
  }

  lemma DoubledOccurs(a: string, q: char, rest: string, pattern: string)
    requires q !in pattern && pattern != ""
    ensures Occurs(a + [q] + ([q] + rest), pattern) <==> Occurs(a, pattern) || Occurs(rest, pattern)
  {
    hide Occurs;
    assert "" + [q] + rest == [q] + rest;
    Separated(a, q, [q] + rest, pattern);
    Separated("", q, rest, pattern);
    TooShort("", pattern);
  }

  lemma ReplaceOne(q: char)
    ensures ReplaceAll([q], q, [q, q]) == [q, q]
  {
    assert [q][1..] == "" && ReplaceAll("", q, [q, q]) == "";
  }

  lemma {:induction false} FirstOf(s: string, q: char)
    requires q in s
    ensures exists k :: 0 <= k < |s| && s[k] == q && q !in s[..k]
  {
    var k :| 0 <= k < |s| && s[k] == q;
    if q in s[..k] {
      FirstOf(s[..k], q);
      var j :| 0 <= j < |s[..k]| && s[..k][j] == q && q !in s[..k][..j];
      assert s[..k][..j] == s[..j];
    }
  }

  const FROM := " FROM "

  /** A quoted name, and what follows its closing quote, hold a FROM just when the name or that does. */
  lemma QuotedOccurs(e: Engine, name: string, after: string)
    ensures Occurs(SqlDump.QuoteIdentifier(e, name) + after, FROM) <==> Occurs(name, FROM) || Occurs(after, FROM)
  {
    hide Occurs, ReplaceAll;
    var q := SqlDump.IdentifierQuote(e);
    var body := ReplaceAll(name, q, [q, q]);
    assert SqlDump.QuoteIdentifier(e, name) + after == "" + [q] + (body + [q] + after);
    DoublingKeeps(name, q, FROM);
    Separated("", q, body + [q] + after, FROM);
    Separated(body, q, after, FROM);
    TooShort("", FROM);
  }

  lemma {:induction false} JoinOccurs(e: Engine, names: seq<string>)
    ensures Occurs(Join(SqlDump.QuoteIdentifiers(e, names), ", "), FROM) <==> exists name | name in names :: Occurs(name, FROM)
  {
    var texts := SqlDump.QuoteIdentifiers(e, names);
    if names == [] {
      TooShort("", FROM);
    } else {
      hide Occurs, SqlDump.QuoteIdentifier;
      assert names == [names[0]] + names[1..];
      assert texts[0] == SqlDump.QuoteIdentifier(e, names[0]) && texts[1..] == SqlDump.QuoteIdentifiers(e, names[1..]);
      if names[1..] == [] {
        TooShort("", FROM);
        QuotedOccurs(e, names[0], "");
        assert texts[0] + "" == texts[0];
      } else {
        JoinOccurs(e, names[1..]);
        var rest := Join(texts[1..], ", ");
        QuotedOccurs(e, names[0], ", " + rest);
        Assoc(texts[0], ", ", rest);
        CommaOccurs(e, names[1..]);
      }
    }
  }

  /** The separator before a quoted name does not begin an occurrence. */
  lemma CommaOccurs(e: Engine, names: seq<string>)
    requires names != []
    ensures var rest := Join(SqlDump.QuoteIdentifiers(e, names), ", "); Occurs(", " + rest, FROM) <==> Occurs(rest, FROM)
  {
    hide Occurs;
    var rest := Join(SqlDump.QuoteIdentifiers(e, names), ", ");
    var q := SqlDump.IdentifierQuote(e);
    assert rest[0] == q;
    var more := rest[1..];
    assert rest == "" + [q] + more && ", " + rest == ", " + [q] + more;
    Separated("", q, more, FROM);
    Separated(", ", q, more, FROM);
    TooShort("", FROM);
    TooShort(", ", FROM);
  }

  /** The selected columns end in a quote. */
  lemma {:induction false} JoinEnds(e: Engine, names: seq<string>)
    requires names != []
    ensures var text := Join(SqlDump.QuoteIdentifiers(e, names), ", ");
      text != "" && text[|text| - 1] == SqlDump.IdentifierQuote(e)
  {
    var texts := SqlDump.QuoteIdentifiers(e, names);
    assert texts[1..] == SqlDump.QuoteIdentifiers(e, names[1..]);
    if |names| > 1 {
      JoinEnds(e, names[1..]);
      assert |texts| > 1;
    } else {
      assert texts == [texts[0]];
    }
  }

  /** The first FROM is the clause's own if and only if no selected name has one. */
  lemma FirstFrom(e: Engine, selected: seq<string>, after: string)
    ensures var select := SelectText(e, selected);
      var r := IndexFrom(select + FROM + after, FROM, 0);
      && 0 <= r <= |select|
      && (r == |select| <==> forall name | name in selected :: !Occurs(name, FROM))
  {
    hide Join, IndexFrom, SqlDump.QuoteIdentifiers;
    var list := Join(SqlDump.QuoteIdentifiers(e, selected), ", ");
    var select := "SELECT " + list;
    var text := select + FROM + after;
    assert text[|select|..|select| + 6] == FROM;
    assert OccursAt(text, FROM, |select|);
    if selected == [] {
      NothingSelected(e, after);
    } else {
      var q := SqlDump.IdentifierQuote(e);
      JoinEnds(e, selected);
      JoinOccurs(e, selected);
      CommaFree(e, selected);
      var body := select[..|select| - 1];
      assert select == body + [q] + "";
      assert text == body + [q] + (FROM + after);
      Separated(body, q, "", FROM);
      Separated(body, q, FROM + after, FROM);
      TooShort("", FROM);
      var r := IndexFrom(text, FROM, 0);
      assert OccursAt(text, FROM, r);
      if i :| OccursAt(body, FROM, i) {
        assert body[i..i + 6] == text[i..i + 6];
        assert OccursAt(text, FROM, i);
      }
    }
  }

  lemma CommaFree(e: Engine, selected: seq<string>)
    requires selected != []
    ensures var list := Join(SqlDump.QuoteIdentifiers(e, selected), ", "); Occurs("SELECT " + list, FROM) <==> Occurs(list, FROM)
  {
    hide Occurs;
    var list := Join(SqlDump.QuoteIdentifiers(e, selected), ", ");
    var q := SqlDump.IdentifierQuote(e);
    assert list[0] == q;
    var more := list[1..];
    assert list == "" + [q] + more && "SELECT " + list == "SELECT " + [q] + more;
    Separated("", q, more, FROM);
    Separated("SELECT ", q, more, FROM);
    TooShort("", FROM);
    NoFromInSelect();
  }

  lemma NoFromInSelect()
    ensures !Occurs("SELECT ", FROM)
  {
    if i :| OccursAt("SELECT ", FROM, i) {
      assert "SELECT "[i..i + 6][0] == "SELECT "[i];
    }
  }

  lemma NothingSelected(e: Engine, after: string)
    ensures var text := SelectText(e, []) + FROM + after; IndexFrom(text, FROM, 0) == |SelectText(e, [])| == 7
  {
    hide IndexFrom;
    var text := SelectText(e, []) + FROM + after;
    assert SelectText(e, []) == "SELECT ";
    assert text[7..13] == FROM;
    assert OccursAt(text, FROM, 7);
    var start := "SELECT  ";
    assert text[..8] == start;
    assert forall k | 1 <= k < 8 :: start[k] != 'F';
    forall r | 0 <= r < 7
      ensures !OccursAt(text, FROM, r)
    {
      assert text[r + 1] == text[..8][r + 1] == start[r + 1];
      if OccursAt(text, FROM, r) {
        OccurrenceReads(text, FROM, r);
      }
    }
  }

  /**
   * The text between the first FROM and the last LIMIT is the query's own table, predicate and order
   * if and only if no selected column's name contains a FROM between blanks.
   */
  lemma CountCutsExactly(e: Engine, source: Source, selected: seq<string>, clauses: seq<Clause>, sorts: seq<Sort>)
    ensures CountText(Render(QueryParts(e, source, selected, clauses, sorts)))
            == COUNT + Render(FromParts(e, source, clauses, sorts))
            <==> forall name | name in selected :: !Occurs(name, FROM)
  {
    hide IndexFrom, LastIndexFrom, Occurs, SelectText, QueryParts, FromParts;
    var select := SelectText(e, selected);
    var from := Render(FromParts(e, source, clauses, sorts));
    var text := Render(QueryParts(e, source, selected, clauses, sorts));
    var after := QueryTextIs(e, source, selected, clauses, sorts);
    LastLimit(select + from);
    FirstFrom(e, selected, after);
    var r := IndexFrom(text, FROM, 0);
    var head := |select + from|;
    assert Slice(text, r, head) == text[r..head];
    assert text[|select|..head] == from;
    if r != |select| {
      assert |text[r..head]| > |from|;
    }
  }

  /** The text of a query, as its select list, its FROM and what follows, and as its window and what precedes. */
  lemma QueryTextIs(e: Engine, source: Source, selected: seq<string>, clauses: seq<Clause>, sorts: seq<Sort>) returns (after: string)
    ensures var select, from := SelectText(e, selected), Render(FromParts(e, source, clauses, sorts));
      var text := Render(QueryParts(e, source, selected, clauses, sorts));
      text == select + from + " LIMIT ? OFFSET ?" == select + FROM + after
  {
    hide SelectText, WINDOW, FromParts, Render;
    var select := SelectText(e, selected);
    var from := FromParts(e, source, clauses, sorts);
    RenderAppend([Fixed(select)] + from, WINDOW);
    RenderAppend([Fixed(select)], from);
    RenderFixed(select);
    WindowText();
    var rest := FromBegins(e, source, clauses, sorts);
    after := rest + " LIMIT ? OFFSET ?";
    Assoc(select, FROM, rest);
    Assoc(select + FROM, rest, " LIMIT ? OFFSET ?");
  }

  lemma FromBegins(e: Engine, source: Source, clauses: seq<Clause>, sorts: seq<Sort>) returns (rest: string)
    ensures Render(FromParts(e, source, clauses, sorts)) == FROM + rest
  {
    hide OrderText, TableText, WhereParts;
    rest := Render(FromParts(e, source, clauses, sorts)[1..]);
    assert FromParts(e, source, clauses, sorts)[0] == Fixed(FROM);
  }

  lemma RenderFixed(text: string)
    ensures Render([Fixed(text)]) == text
  {
    assert [Fixed(text)][1..] == [];
  }

  // ---- What the count counts ----

  /** The described columns have distinct names, and the filters are valid: all a count asks for. */
  ghost predicate Countable(source: Source, request: Request) {
    ValidSelection(source.columns, source.kinds) && FilterClauses(request.filters, source.kinds).Some?
  }

  lemma CountRequestValid(e: Engine, source: Source, request: Request, primary: seq<string>)
    requires Countable(source, request)
    ensures Selected(CountRequest(source, request), source) == source.columns
    ensures WhereClauses(CountRequest(source, request), source).Some?
    ensures DataQueryOf(e, source, CountRequest(source, request), CountPrimary(e, primary)).Some?
  {}

  /**
   * The total of a request with valid filters is counted with exactly the parameters of its predicate: unless
   * a column's name has a FROM between blanks, every condition gets its own. A driver that cuts at
   * every `?` delivers that unless another name has a `?`.
   */
  lemma CountIsDelivered(e: Engine, source: Source, request: Request, primary: seq<string>)
    requires Countable(source, request)
    ensures var inner := CountRequest(source, request);
      var sorts := CompleteSorts([], CountPrimary(e, primary));
      && CountOf(e, source, request, primary).Some?
      && WhereClauses(inner, source).Some?
      && CountOf(e, source, request, primary).value.1 == WhereClauses(inner, source).value.1
      && (forall c | c in Conditions(inner, source) :: Matched(c))
      && var (clauses, _) := WhereClauses(inner, source).value;
      var (text, params) := CountOf(e, source, request, primary).value;
      var parts := [Fixed(COUNT)] + FromParts(e, source, clauses, sorts);
      && HoleCount(parts) == |params|
      && Fill(parts, params) == Letters(COUNT) + FromSymbols(e, source, Conditions(inner, source), sorts)
      && (text == Render(parts) <==> forall name | name in source.columns :: !Occurs(name, FROM))
      && (text == Render(parts) ==>
            Execute(text, params) == if NamesFree(source, [], clauses, sorts) then Some(Fill(parts, params)) else None)
  {
    hide WhereClauses, CountText, Conditions, NamesFree, Occurs, FromParts, QueryParts, Execute, FromSymbols, Matched,
      Letters, Fill, Deal, Plain, Render, HoleCount;
    CountRequestValid(e, source, request, primary);
    var inner := CountRequest(source, request);
    var sorts := CompleteSorts([], CountPrimary(e, primary));
    var (clauses, params) := WhereClauses(inner, source).value;
    Dealt(source, inner);
    var from := FromParts(e, source, clauses, sorts);
    CountCutsExactly(e, source, source.columns, clauses, sorts);
    FillFrom(e, source, clauses, params, sorts);
    FillFixed(COUNT);
    FillAppend([Fixed(COUNT)], [], from, params);
    RenderAppend([Fixed(COUNT)], from);
    RenderFixed(COUNT);
    assert [] + params == params;
    PlainFrom(e, source, clauses, sorts);
    CountIsPlain();
    PlainAppend([Fixed(COUNT)], from);
    DriverDelivers([Fixed(COUNT)] + from, params);
    var query := DataQueryOf(e, source, inner, CountPrimary(e, primary)).value;
    assert query.parameters[..|query.parameters| - 2] == params;
    assert query.parts == QueryParts(e, source, source.columns, clauses, sorts);
  }

  lemma CountIsPlain()
    ensures Plain([Fixed(COUNT)])
  {}

  ghost predicate SameNames(a: seq<string>, b: seq<string>) { forall name :: name in a <==> name in b }

  /** The searched columns are the same for the page and for its count, or there is no search. */
  ghost predicate SearchUnaffected(source: Source, request: Request) {
    || SqlLexer.Trim(request.search) == ""
    || SameNames(Searchable(Selected(request, source), source.kinds), Searchable(source.columns, source.kinds))
  }

  lemma SameNamesEmpty(a: seq<string>, b: seq<string>)
    requires SameNames(a, b)
    ensures a == [] <==> b == []
  {
    if a != [] {
      assert a[0] in a;
    }
    if b != [] {
      assert b[0] in b;
    }
  }

  /** The rows counted are the rows paged whenever the search is not narrowed by selecting columns. */
  lemma CountsThePage(server: Server, source: Source, request: Request, cells: Cells)
    requires SearchUnaffected(source, request)
    ensures RequestHolds(server, source, CountRequest(source, request), cells) <==> RequestHolds(server, source, request, cells)
  {
    hide ContainsText;
    var a := Searchable(Selected(request, source), source.kinds);
    var b := Searchable(source.columns, source.kinds);
    assert Selected(CountRequest(source, request), source) == source.columns;
    if SqlLexer.Trim(request.search) != "" {
      SameNamesEmpty(a, b);
    }
  }

  lemma {:induction false} SearchableMembers(columns: seq<string>, kinds: map<string, Kind>)
    ensures forall name :: name in Searchable(columns, kinds) <==> name in columns && name in kinds && kinds[name] == TextKind
  {
    if columns != [] {
      SearchableMembers(columns[1..], kinds);
      assert columns == [columns[0]] + columns[1..];
    }
  }

  ghost predicate FiltersPass(server: Server, request: Request, cells: Cells) {
    forall f | f in request.filters :: FilterHolds(server, f, cells)
  }

  /** No text column of the table contains the search. */
  ghost predicate Misses(server: Server, source: Source, request: Request, cells: Cells) {
    forall name | name in Searchable(source.columns, source.kinds) ::
      cells(name).Some? ==> !ContainsText(server.fold, SqlLexer.Trim(request.search), cells(name).value)
  }

  /** A text column that the count searches and the page does not, free of filters. */
  ghost predicate FreeExtra(source: Source, request: Request, name: string) {
    && name in Searchable(source.columns, source.kinds)
    && name !in Searchable(Selected(request, source), source.kinds)
    && forall f | f in request.filters :: f.column != name
  }

  /**
   * That is the exact condition when some row passes the filters without containing the search, and
   * some text column left out of the page is free of filters: then some row is paged and not counted,
   * or counted and not paged. Without filters both hold by themselves.
   */
  lemma CountsThePageExactly(source: Source, request: Request)
    requires forall name | name in Selected(request, source) :: name in source.columns
    requires exists server: Server, cells: Cells :: FiltersPass(server, request, cells) && Misses(server, source, request, cells)
    requires SearchUnaffected(source, request) || exists name :: FreeExtra(source, request, name)
    ensures SearchUnaffected(source, request)
            <==> forall server: Server, cells: Cells ::
                   RequestHolds(server, source, CountRequest(source, request), cells) <==> RequestHolds(server, source, request, cells)
  {
    hide Searchable, Selected, FiltersPass, Misses, RequestHolds;
    if SearchUnaffected(source, request) {
      forall server: Server, cells: Cells
        ensures RequestHolds(server, source, CountRequest(source, request), cells) <==> RequestHolds(server, source, request, cells)
      {
        CountsThePage(server, source, request, cells);
      }
    } else {
      var server: Server, cells: Cells :| FiltersPass(server, request, cells) && Misses(server, source, request, cells);
      var name :| FreeExtra(source, request, name);
      CountDiffers(server, source, request, cells, name);
    }
  }

  lemma CountDiffers(server: Server, source: Source, request: Request, cells: Cells, name: string)
    requires SqlLexer.Trim(request.search) != "" && FreeExtra(source, request, name)
    requires forall column | column in Selected(request, source) :: column in source.columns
    requires FiltersPass(server, request, cells) && Misses(server, source, request, cells)
    ensures exists other: Cells ::
      RequestHolds(server, source, CountRequest(source, request), other) != RequestHolds(server, source, request, other)
  {
    SearchableMembers(Selected(request, source), source.kinds);
    SearchableMembers(source.columns, source.kinds);
    hide Searchable;
    var search := SqlLexer.Trim(request.search);
    var a := Searchable(Selected(request, source), source.kinds);
    var b := Searchable(source.columns, source.kinds);
    CountSelects(source, request);
    assert name in b;
    if a == [] {
      assert SearchHolds(server, search, a, cells);
      assert !SearchHolds(server, search, b, cells);
      assert RequestHolds(server, source, CountRequest(source, request), cells) != RequestHolds(server, source, request, cells);
    } else {
      var other: Cells := column => if column == name then Some(search) else cells(column);
      FiltersIgnore(server, request, cells, other, name);
      assert ContainsText(server.fold, search, search) by {
        assert search[0..0 + |search|] == search;
        assert Like.At(server.fold, search, search, 0);
      }
      hide FilterHolds, ContainsText;
      assert SearchHolds(server, search, b, other);
      assert !SearchHolds(server, search, a, other);
      assert RequestHolds(server, source, CountRequest(source, request), other) != RequestHolds(server, source, request, other);
    }
  }

  lemma CountSelects(source: Source, request: Request)
    ensures Selected(CountRequest(source, request), source) == source.columns
    ensures CountRequest(source, request).filters == request.filters && CountRequest(source, request).search == request.search
  {}

  /** Filters see only their own columns. */
  lemma FiltersIgnore(server: Server, request: Request, cells: Cells, other: Cells, name: string)
    requires FiltersPass(server, request, cells) && forall column: string | column != name :: other(column) == cells(column)
    requires forall f | f in request.filters :: f.column != name
    ensures FiltersPass(server, request, other)
  {
    forall f | f in request.filters
      ensures FilterHolds(server, f, other)
    {
      assert FilterHolds(server, f, cells) && other(f.column) == cells(f.column);
    }
  }

  /** Without filters a row of nulls misses every search, and every column is free. */
  lemma UnfilteredCountExactly(source: Source, request: Request)
    requires request.filters == [] && forall name | name in Selected(request, source) :: name in source.columns
    ensures SearchUnaffected(source, request)
            <==> forall server: Server, cells: Cells ::
                   RequestHolds(server, source, CountRequest(source, request), cells) <==> RequestHolds(server, source, request, cells)
  {
    SearchableMembers(Selected(request, source), source.kinds);
    SearchableMembers(source.columns, source.kinds);
    hide Searchable, RequestHolds;
    var server, cells := Server(c => c, (_, _, _, _) => true), (_: string) => None;
    assert FiltersPass(server, request, cells) && Misses(server, source, request, cells);
    if !SearchUnaffected(source, request) {
      var name :| name in Searchable(source.columns, source.kinds) && name !in Searchable(Selected(request, source), source.kinds);
      assert FreeExtra(source, request, name);
    }
    CountsThePageExactly(source, request);
  }
}
