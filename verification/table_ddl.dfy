/** The table definition an SQL export prints, and what the statement splitter makes of it. */
module TableDdl {
  import opened Text
  import opened SqlLexer
  import opened SqlChunks
  import opened SqlPieces
  import opened SqlDump
  import opened SqlExport

  /** A described column; type and default are texts of the server, an empty default is none. */
  datatype Column = Column(name: string, dataType: string, nullable: bool, defaultExpression: string)

  datatype Key = Key(name: string, columns: seq<string>)

  function ColumnLine(e: Engine, c: Column): string {
    QuoteIdentifier(e, c.name) + (" " + (c.dataType + ((if c.nullable then "" else " NOT NULL")
    + if c.defaultExpression != "" then " DEFAULT " + c.defaultExpression else "")))
  }

  function ColumnLines(e: Engine, columns: seq<Column>): seq<string> {
    if columns == [] then [] else [ColumnLine(e, columns[0])] + ColumnLines(e, columns[1..])
  }

  function KeyLine(e: Engine, k: Key): string {
    (if e == Postgresql then "CONSTRAINT " + (QuoteIdentifier(e, k.name) + " ") else "")
    + ("PRIMARY KEY (" + (Join(QuoteIdentifiers(e, k.columns), ", ") + ")"))
  }

  function KeyLines(e: Engine, key: Option<Key>): seq<string> {
    match key
    case Some(k) => [KeyLine(e, k)]
    case None => []
  }

  /** `createTableDdl` without its final semicolon, for columns in the order of their positions. */
  function Create(e: Engine, schema: string, name: string, columns: seq<Column>, key: Option<Key>): string {
    "CREATE TABLE " + (QuoteTarget(e, Table(schema, name)) + (" (" + ("\n" + ("  "
    + (Join(ColumnLines(e, columns) + KeyLines(e, key), ",\n  ") + ("\n" + ")"))))))
  }

  // ---- Texts read through ----

  /** The splitter reads `t` from `Normal` to `Normal` without a cut, whatever follows. */
  ghost predicate Passes(e: Engine, t: string) {
    forall b: string, pos: nat :: Cuts(e, Normal, t + b, pos) == Cuts(e, Normal, b, pos + |t|)
  }

  /** A text without a separator that leaves no quote, comment, tag or single character open. */
  predicate Settled(e: Engine, t: string) {
    Cuts(e, Normal, t, 0) == [] && EndMode(e, Normal, t) == Normal && !Pending(e, Normal, t)
  }

  lemma SettledPasses(e: Engine, t: string)
    requires Settled(e, t)
    ensures Passes(e, t)
  {
    hide Cuts, EndMode, Pending, Aligned;
    forall b: string, pos: nat
      ensures Cuts(e, Normal, t + b, pos) == Cuts(e, Normal, b, pos + |t|)
    {
      NotPendingAligned(e, Normal, t, b);
      Sync(e, Normal, t, b, pos);
      CutsShift(e, Normal, t, 0, pos);
      assert [] + Cuts(e, Normal, b, pos + |t|) == Cuts(e, Normal, b, pos + |t|);
    }
  }

  lemma PassesAppend(e: Engine, t: string, u: string)
    requires Passes(e, t) && Passes(e, u)
    ensures Passes(e, t + u)
  {
    hide Cuts;
    forall b: string, pos: nat
      ensures Cuts(e, Normal, (t + u) + b, pos) == Cuts(e, Normal, b, pos + |t + u|)
    {
      Assoc(t, u, b);
      assert Cuts(e, Normal, t + (u + b), pos) == Cuts(e, Normal, u + b, pos + |t|);
    }
  }

  lemma EmptyPasses(e: Engine)
    ensures Passes(e, "")
  {
    hide Cuts;
    assert forall b: string :: "" + b == b;
  }

  lemma LinePasses(e: Engine)
    ensures Passes(e, "\n")
  {
    hide Cuts;
    forall b: string, pos: nat
      ensures Cuts(e, Normal, "\n" + b, pos) == Cuts(e, Normal, b, pos + 1)
    {
      LineEnd(e, b, pos);
    }
  }

  /** Safe literals with plain text behind them. */
  lemma PiecesPass(e: Engine, ps: seq<Piece>)
    requires WellFormed(e, ps) && AllSafe(ps)
    ensures Passes(e, RenderAll(ps))
  {
    hide Cuts, RenderAll;
    forall b: string, pos: nat
      ensures Cuts(e, Normal, RenderAll(ps) + b, pos) == Cuts(e, Normal, b, pos + |RenderAll(ps)|)
    {
      RowSkips(e, ps, b, pos);
    }
  }

  lemma PlainPasses(e: Engine, t: string)
    requires forall c | c in t :: PlainChar(c)
    ensures Passes(e, t)
  {
    hide Cuts;
    AllPlain(t);
    forall b: string, pos: nat
      ensures Cuts(e, Normal, t + b, pos) == Cuts(e, Normal, b, pos + |t|)
    {
      PlainSkips(e, t, b, pos);
    }
  }

  // ---- The parts of a definition ----

  lemma NamePasses(e: Engine, name: string)
    requires Safe(IdentifierQuote(e), name)
    ensures Passes(e, QuoteIdentifier(e, name) + " ")
  {
    hide Passes, Safe, ReplaceAll;
    var p := IdentifierPiece(e, name);
    AllPlain(" ");
    assert WellFormed(e, []);
    WellFormedThen(e, Plain(" "), []);
    assert [Plain(" ")] + [] == [Plain(" ")];
    WellFormedThen(e, p, [Plain(" ")]);
    NothingSafe();
    AllSafeAppend([p], [Plain(" ")]);
    OneSafe(p);
    OneSafe(Plain(" "));
    PiecesPass(e, [p] + [Plain(" ")]);
    RenderAllAppend([p], [Plain(" ")]);
    RenderOne(p);
    RenderOne(Plain(" "));
  }

  lemma NamesPass(e: Engine, names: seq<string>)
    requires SafeNames(e, names)
    ensures Passes(e, Join(QuoteIdentifiers(e, names), ", ") + ")")
  {
    hide Passes, SafeNames, WellFormed, AllSafe, Render, JoinPieces, Join;
    var ps := IdentifierPieces(e, names);
    FixedTextsPlain(e);
    assert WellFormed(e, []) by { NothingWellFormed(e); }
    WellFormedThen(e, Plain(")"), []);
    assert [Plain(")")] + [] == [Plain(")")];
    IdentifiersGood(e, names);
    JoinWellFormed(e, ps, [Plain(")")]);
    IdentifiersSafe(e, names);
    JoinSafe(ps);
    OneSafe(Plain(")"));
    AllSafeAppend(JoinPieces(ps), [Plain(")")]);
    PiecesPass(e, JoinPieces(ps) + [Plain(")")]);
    RenderAllAppend(JoinPieces(ps), [Plain(")")]);
    JoinRenders(ps);
    RendersIdentifiers(e, names);
    RenderOne(Plain(")"));
    RenderPlain(")");
  }

  lemma NothingWellFormed(e: Engine)
    ensures WellFormed(e, [])
  {}

  lemma TargetPasses(e: Engine, target: Target)
    requires SafeTarget(e, target)
    ensures Passes(e, QuoteTarget(e, target) + " (")
  {
    hide Passes, SafeTarget, WellFormed, AllSafe, Render, TargetPieces, QuoteTarget;
    var ps := TargetPieces(e, target);
    FixedTextsPlain(e);
    NothingWellFormed(e);
    WellFormedThen(e, Plain(" ("), []);
    assert [Plain(" (")] + [] == [Plain(" (")];
    TargetWellFormed(e, target, [Plain(" (")]);
    TargetSafe(e, target);
    OneSafe(Plain(" ("));
    AllSafeAppend(ps, [Plain(" (")]);
    PiecesPass(e, ps + [Plain(" (")]);
    RenderAllAppend(ps, [Plain(" (")]);
    RendersTarget(e, target);
    RenderOne(Plain(" ("));
    RenderPlain(" (");
  }

  /** What a column must satisfy: a safe name, and texts of the server that leave nothing open. */
  predicate SafeColumn(e: Engine, c: Column) {
    Safe(IdentifierQuote(e), c.name) && Settled(e, c.dataType) && Settled(e, c.defaultExpression)
  }

  predicate SafeKey(e: Engine, k: Key) {
    (e == Postgresql ==> Safe(IdentifierQuote(e), k.name)) && forall name | name in k.columns :: Safe(IdentifierQuote(e), name)
  }

  lemma ColumnPasses(e: Engine, c: Column)
    requires SafeColumn(e, c)
    ensures Passes(e, ColumnLine(e, c))
  {
    hide Passes, Settled, Safe, QuoteIdentifier;
    EmptyPasses(e);
    PlainPasses(e, " NOT NULL");
    PlainPasses(e, " DEFAULT ");
    SettledPasses(e, c.dataType);
    SettledPasses(e, c.defaultExpression);
    NamePasses(e, c.name);
    var notNull, default_ := if c.nullable then "" else " NOT NULL",
                          if c.defaultExpression != "" then " DEFAULT " + c.defaultExpression else "";
    PassesAppend(e, " DEFAULT ", c.defaultExpression);
    PassesAppend(e, notNull, default_);
    PassesAppend(e, c.dataType, notNull + default_);
    PassesAppend(e, QuoteIdentifier(e, c.name) + " ", c.dataType + (notNull + default_));
    Assoc(QuoteIdentifier(e, c.name), " ", c.dataType + (notNull + default_));
  }

  lemma KeyPasses(e: Engine, k: Key)
    requires SafeKey(e, k)
    ensures Passes(e, KeyLine(e, k))
  {
    hide Passes, Safe, QuoteIdentifier, Join;
    EmptyPasses(e);
    PlainPasses(e, "CONSTRAINT ");
    PlainPasses(e, "PRIMARY KEY (");
    NamesPass(e, k.columns);
    var columns := Join(QuoteIdentifiers(e, k.columns), ", ") + ")";
    PassesAppend(e, "PRIMARY KEY (", columns);
    if e == Postgresql {
      NamePasses(e, k.name);
      PassesAppend(e, "CONSTRAINT ", QuoteIdentifier(e, k.name) + " ");
      PassesAppend(e, "CONSTRAINT " + (QuoteIdentifier(e, k.name) + " "), "PRIMARY KEY (" + columns);
    } else {
      PassesAppend(e, "", "PRIMARY KEY (" + columns);
    }
  }

  lemma {:induction false} ColumnsPass(e: Engine, columns: seq<Column>)
    requires forall c | c in columns :: SafeColumn(e, c)
    ensures forall line | line in ColumnLines(e, columns) :: Passes(e, line)
  {
    hide Passes, SafeColumn, ColumnLine;
    if columns != [] {
      ColumnPasses(e, columns[0]);
      ColumnsPass(e, columns[1..]);
    }
  }

  lemma {:induction false} LinesPass(e: Engine, lines: seq<string>)
    requires forall line | line in lines :: Passes(e, line)
    ensures Passes(e, Join(lines, ",\n  "))
  {
    hide Passes;
    if lines == [] {
      EmptyPasses(e);
    } else if |lines| > 1 {
      LinesPass(e, lines[1..]);
      SeparatorPasses(e);
      PassesAppend(e, lines[0], ",\n  ");
      PassesAppend(e, lines[0] + ",\n  ", Join(lines[1..], ",\n  "));
    }
  }

  lemma SeparatorPasses(e: Engine)
    ensures Passes(e, ",\n  ")
  {
    hide Passes;
    PlainPasses(e, ",");
    LinePasses(e);
    PlainPasses(e, "  ");
    assert "," + "\n" == ",\n" && ",\n" + "  " == ",\n  ";
    PassesAppend(e, ",", "\n");
    PassesAppend(e, ",\n", "  ");
  }

  predicate SafeDefinition(e: Engine, schema: string, name: string, columns: seq<Column>, key: Option<Key>) {
    && Safe(IdentifierQuote(e), schema) && Safe(IdentifierQuote(e), name)
    && (forall c | c in columns :: SafeColumn(e, c))
    && (key.Some? ==> SafeKey(e, key.value))
  }

  lemma CreatePasses(e: Engine, schema: string, name: string, columns: seq<Column>, key: Option<Key>)
    requires SafeDefinition(e, schema, name, columns, key)
    ensures Passes(e, Create(e, schema, name, columns, key))
  {
    hide Passes, Safe, SafeColumn, SafeKey, Join, ColumnLines, KeyLine, QuoteTarget;
    var target, lines := Table(schema, name), ColumnLines(e, columns) + KeyLines(e, key);
    var body := Join(lines, ",\n  ");
    ColumnsPass(e, columns);
    if key.Some? {
      KeyPasses(e, key.value);
    }
    LinesPass(e, lines);
    PlainPasses(e, "CREATE TABLE ");
    TargetPasses(e, target);
    LinePasses(e);
    PlainPasses(e, "  ");
    PlainPasses(e, ")");
    PassesAppend(e, "\n", ")");
    PassesAppend(e, body, "\n" + ")");
    PassesAppend(e, "  ", body + ("\n" + ")"));
    PassesAppend(e, "\n", "  " + (body + ("\n" + ")")));
    var rest := "\n" + ("  " + (body + ("\n" + ")")));
    PassesAppend(e, QuoteTarget(e, target) + " (", rest);
    Assoc(QuoteTarget(e, target), " (", rest);
    PassesAppend(e, "CREATE TABLE ", QuoteTarget(e, target) + (" (" + rest));
  }

  /** A definition of safe names whose types and defaults leave nothing open comes back alone. */
  lemma CreateIsWhole(e: Engine, schema: string, name: string, columns: seq<Column>, key: Option<Key>)
    requires SafeDefinition(e, schema, name, columns, key)
    ensures IsTight(Create(e, schema, name, columns, key)) && Whole(e, Create(e, schema, name, columns, key))
  {
    hide SafeDefinition, Whole, Create, Cuts;
    var s := Create(e, schema, name, columns, key);
    CreateTight(e, schema, name, columns, key);
    CreatePasses(e, schema, name, columns, key);
    assert Cuts(e, Normal, s + ";", 0) == Cuts(e, Normal, ";", |s|);
    SemicolonCuts(e, |s|);
    WholeEndsOnly(e, s);
  }

  lemma CreateTight(e: Engine, schema: string, name: string, columns: seq<Column>, key: Option<Key>)
    ensures IsTight(Create(e, schema, name, columns, key))
  {
    hide QuoteTarget, Join, ColumnLines;
    var s := Create(e, schema, name, columns, key);
    assert s[0] == 'C' && s[|s| - 1] == ')';
  }

  lemma SemicolonCuts(e: Engine, pos: nat)
    ensures Cuts(e, Normal, ";", pos) == [pos]
  {
    assert ";"[1..] == "";
    Unfold(e, Normal, ";", Token(Normal, 1, true), pos);
  }

  // ---- A default that is not settled ----

  /** Inside quotes that do not end nothing is cut. */
  lemma {:induction false} OpenQuoteCuts(e: Engine, q: char, t: string, pos: nat)
    requires IsQuote(e, q) && q !in t && '\\' !in t
    ensures Cuts(e, Quoted(q), t, pos) == []
    decreases |t|
  {
    if t != "" {
      assert t[0] in t;
      Unfold(e, Quoted(q), t, Token(Quoted(q), 1, false), pos);
      OpenQuoteCuts(e, q, t[1..], pos + 1);
    }
  }

  /** MySQL describes the default text of a column without quotes; one apostrophe in it leaves a quote open. */
  lemma ApostropheBreaksDefinition(schema: string, name: string, column: string, x: string, y: string)
    requires Safe('`', schema) && Safe('`', name) && Safe('`', column)
    requires (forall c | c in x :: PlainChar(c)) && forall c | c in y :: PlainChar(c)
    ensures !Whole(Mysql, Create(Mysql, schema, name, [Column(column, "text", true, x + "'" + y)], None))
  {
    hide Passes, Safe, Whole, Cuts, Create, Front, PlainChar, IsTight;
    var e, columns := Mysql, [Column(column, "text", true, x + "'" + y)];
    var s, front, tail := Create(e, schema, name, columns, None), Front(schema, name, column, x), y + "\n);";
    CreateTight(e, schema, name, columns, None);
    FrontOf(schema, name, column, x, y);
    FrontPasses(schema, name, column, x);
    PassesOn(e, front, "'" + tail);
    assert ("'" + tail)[1..] == tail;
    Unfold(e, Normal, "'" + tail, Token(Quoted('\''), 1, false), |front|);
    PlainNoQuote(y);
    OpenQuoteCuts(e, '\'', tail, |front| + 1);
    WholeEndsOnly(e, s);
  }

  /** The definition up to the apostrophe. */
  function Front(schema: string, name: string, column: string, x: string): string {
    "CREATE TABLE " + (QuoteTarget(Mysql, Table(schema, name)) + " ("
    + ("\n" + ("  " + (QuoteIdentifier(Mysql, column) + " " + ("text" + (" DEFAULT " + x))))))
  }

  lemma FrontOf(schema: string, name: string, column: string, x: string, y: string)
    ensures Create(Mysql, schema, name, [Column(column, "text", true, x + "'" + y)], None) + ";"
         == Front(schema, name, column, x) + ("'" + (y + "\n);"))
  {
    hide QuoteIdentifier, QuoteTarget;
    var columns := [Column(column, "text", true, x + "'" + y)];
    assert columns[1..] == [] && ColumnLines(Mysql, []) == [];
    assert ColumnLines(Mysql, columns) + KeyLines(Mysql, None) == [ColumnLine(Mysql, columns[0])];
  }

  lemma PassesOn(e: Engine, t: string, b: string)
    requires Passes(e, t)
    ensures Cuts(e, Normal, t + b, 0) == Cuts(e, Normal, b, |t|)
  {}

  lemma PlainNoQuote(t: string)
    requires forall c | c in t :: PlainChar(c)
    ensures '\'' !in t && '\\' !in t
  {}

  lemma FrontPasses(schema: string, name: string, column: string, x: string)
    requires Safe('`', schema) && Safe('`', name) && Safe('`', column) && forall c | c in x :: PlainChar(c)
    ensures Passes(Mysql, Front(schema, name, column, x))
  {
    hide Passes, Safe, QuoteIdentifier, QuoteTarget;
    var e := Mysql;
    PlainPasses(e, "CREATE TABLE ");
    TargetPasses(e, Table(schema, name));
    LinePasses(e);
    PlainPasses(e, "  ");
    NamePasses(e, column);
    PlainPasses(e, "text");
    PlainPasses(e, " DEFAULT ");
    PlainPasses(e, x);
    PassesAppend(e, " DEFAULT ", x);
    PassesAppend(e, "text", " DEFAULT " + x);
    var line := QuoteIdentifier(e, column) + " " + ("text" + (" DEFAULT " + x));
    PassesAppend(e, QuoteIdentifier(e, column) + " ", "text" + (" DEFAULT " + x));
    PassesAppend(e, "  ", line);
    PassesAppend(e, "\n", "  " + line);
    PassesAppend(e, QuoteTarget(e, Table(schema, name)) + " (", "\n" + ("  " + line));
    PassesAppend(e, "CREATE TABLE ", QuoteTarget(e, Table(schema, name)) + " (" + ("\n" + ("  " + line)));
  }
}
