/**
 * Exports read back. An `INSERT` is read by the literal rules of its server, a CSV file by the import's
 * reader, a JSON file as an array: under every column stands the value of its row.
 */
module ExportReader {
  import opened Text
  import opened SqlDump
  import opened ExportWriter
  import Csv = CsvCodec
  import SqlLexer

  type Engine = SqlLexer.Engine

  // ---- Reading ----

  /** What follows `text`, when `s` starts with it. */
  function After(s: string, text: string): (r: Option<string>)
    ensures r.Some? ==> |r.value| + |text| == |s|
  {
    if text <= s then Some(s[|text|..]) else None
  }

  /** What a backslash and `c` stand for in a MySQL text. */
  function Unescaped(c: char): string {
    match c
    case '0' => "\U{0000}"
    case 'b' => "\U{0008}"
    case 'n' => "\n"
    case 'r' => "\r"
    case 't' => "\t"
    case 'Z' => "\U{001A}"
    case '%' => "\\%"
    case '_' => "\\_"
    case _ => [c]
  }

  /** The rest of a quoted text: a doubled quote is one, a single quote ends it; `escapes` are MySQL's backslashes. */
  function ReadQuoted(q: char, escapes: bool, s: string): (r: Option<(string, string)>)
    ensures r.Some? ==> |r.value.1| < |s|
    decreases |s|
  {
    if s == "" then None
    else if s[0] == '\\' && escapes then
      if |s| == 1 then None
      else match ReadQuoted(q, escapes, s[2..])
        case None => None
        case Some((text, rest)) => Some((Unescaped(s[1]) + text, rest))
    else if s[0] != q then
      match ReadQuoted(q, escapes, s[1..])
      case None => None
      case Some((text, rest)) => Some(([s[0]] + text, rest))
    else if |s| > 1 && s[1] == q then
      match ReadQuoted(q, escapes, s[2..])
      case None => None
      case Some((text, rest)) => Some(([q] + text, rest))
    else Some(("", s[1..]))
  }

  function ReadName(e: Engine, s: string): (r: Option<(string, string)>)
    ensures r.Some? ==> |r.value.1| < |s|
  {
    if s == "" || s[0] != IdentifierQuote(e) then None else ReadQuoted(IdentifierQuote(e), false, s[1..])
  }

  /** The characters before the next comma or parenthesis. */
  function Word(s: string): (n: nat)
    ensures n <= |s|
  {
    if s == "" || s[0] == ',' || s[0] == ')' then 0 else 1 + Word(s[1..])
  }

  /** A literal, and what it denotes. */
  function ReadLiteral(e: Engine, s: string): (r: Option<(Value, string)>)
    ensures r.Some? ==> |r.value.1| < |s|
  {
    if s != "" && s[0] == '\'' then
      match ReadQuoted('\'', e == SqlLexer.Mysql, s[1..])
      case None => None
      case Some((text, rest)) => Some((Str(text), rest))
    else
      var n := Word(s);
      if n == 0 then None
      else if s[..n] == "NULL" then Some((Null, s[n..]))
      else if s[..n] == "TRUE" then Some((Bool(true), s[n..]))
      else if s[..n] == "FALSE" then Some((Bool(false), s[n..]))
      else Some((Number(s[..n]), s[n..]))
  }

  /** Names with commas. */
  function ReadNames(e: Engine, s: string): Option<(seq<string>, string)>
    decreases |s|
  {
    match ReadName(e, s)
    case None => None
    case Some((name, t)) =>
      match After(t, ", ")
      case None => Some(([name], t))
      case Some(u) =>
        match ReadNames(e, u)
        case None => None
        case Some((names, rest)) => Some(([name] + names, rest))
  }

  function ReadLiterals(e: Engine, s: string): Option<(seq<Value>, string)>
    decreases |s|
  {
    match ReadLiteral(e, s)
    case None => None
    case Some((value, t)) =>
      match After(t, ", ")
      case None => Some(([value], t))
      case Some(u) =>
        match ReadLiterals(e, u)
        case None => None
        case Some((values, rest)) => Some(([value] + values, rest))
  }

  function ReadColumns(e: Engine, s: string): Option<(seq<string>, string)> {
    if s != "" && s[0] == ')' then Some(([], s)) else ReadNames(e, s)
  }

  function ReadValues(e: Engine, s: string): Option<(seq<Value>, string)> {
    if s != "" && s[0] == ')' then Some(([], s)) else ReadLiterals(e, s)
  }

  /** The table of a statement: a name, or two with a dot. */
  function ReadTarget(e: Engine, s: string): Option<(seq<string>, string)> {
    match ReadName(e, s)
    case None => None
    case Some((first, t)) =>
      match After(t, ".")
      case None => Some(([first], t))
      case Some(u) =>
        match ReadName(e, u)
        case None => None
        case Some((second, rest)) => Some(([first, second], rest))
  }

  datatype Insertion = Insertion(target: seq<string>, columns: seq<string>, values: seq<Value>)

  /** A whole `INSERT` of one row. */
  function ReadInsert(e: Engine, s: string): Option<Insertion> {
    match After(s, "INSERT INTO ")
    case None => None
    case Some(s1) =>
      match ReadTarget(e, s1)
      case None => None
      case Some((target, s2)) =>
        match After(s2, " (")
        case None => None
        case Some(s3) =>
          match ReadColumns(e, s3)
          case None => None
          case Some((columns, s4)) =>
            match After(s4, ") VALUES (")
            case None => None
            case Some(s5) =>
              match ReadValues(e, s5)
              case None => None
              case Some((values, s6)) => if s6 == ")" then Some(Insertion(target, columns, values)) else None
  }

  // ---- Printed parts read back ----

  lemma {:induction false} AfterOwn(text: string, rest: string)
    ensures After(text + rest, text) == Some(rest)
  {
    assert (text + rest)[|text|..] == rest;
  }

  lemma {:induction false} Doubling(q: char, c: char, s: string, rest: string)
    ensures ReplaceAll([c] + s, q, [q, q]) + ([q] + rest)
         == (if c == q then [q, q] else [c]) + (ReplaceAll(s, q, [q, q]) + ([q] + rest))
  {
    assert ([c] + s)[0] == c && ([c] + s)[1..] == s;
    Assoc(if c == q then [q, q] else [c], ReplaceAll(s, q, [q, q]), [q] + rest);
  }

  /** A text with its quotes doubled is read back, where backslashes do not escape. */
  lemma {:induction false} QuotedBack(q: char, s: string, rest: string)
    requires rest == "" || rest[0] != q
    ensures ReadQuoted(q, false, ReplaceAll(s, q, [q, q]) + ([q] + rest)) == Some((s, rest))
    decreases |s|
  {
    var t := ReplaceAll(s, q, [q, q]) + ([q] + rest);
    if s == "" {
      assert t == [q] + rest && t[1..] == rest;
    } else {
      QuotedBack(q, s[1..], rest);
      assert s == [s[0]] + s[1..];
      Doubling(q, s[0], s[1..], rest);
      var more := ReplaceAll(s[1..], q, [q, q]) + ([q] + rest);
      hide ReplaceAll;
      if s[0] == q {
        assert t[0] == q && t[1] == q && t[2..] == more;
      } else {
        assert t[0] == s[0] && t[1..] == more;
      }
    }
  }

  /** The same where they do, with the backslashes doubled before the quotes. */
  lemma {:induction false} EscapedBack(q: char, s: string, rest: string)
    requires q != '\\' && (rest == "" || rest[0] != q)
    ensures ReadQuoted(q, true, ReplaceAll(ReplaceAll(s, '\\', "\\\\"), q, [q, q]) + ([q] + rest)) == Some((s, rest))
    decreases |s|
  {
    var u := ReplaceAll(s, '\\', "\\\\");
    var t := ReplaceAll(u, q, [q, q]) + ([q] + rest);
    if s == "" {
      assert u == "" && t == [q] + rest && t[1..] == rest;
    } else {
      EscapedBack(q, s[1..], rest);
      var v := ReplaceAll(s[1..], '\\', "\\\\");
      var more := ReplaceAll(v, q, [q, q]) + ([q] + rest);
      if s[0] == '\\' {
        assert u == "\\" + ("\\" + v);
        Doubling(q, '\\', "\\" + v, rest);
        Doubling(q, '\\', v, rest);
        hide ReplaceAll;
        assert t[0] == '\\' && t[1] == '\\' && t[2..] == more;
      } else {
        assert u == [s[0]] + v;
        Doubling(q, s[0], v, rest);
        hide ReplaceAll;
        if s[0] == q {
          assert t[0] == q && t[1] == q && t[2..] == more;
        } else {
          assert t[0] == s[0] && t[1..] == more;
        }
      }
      assert s == [s[0]] + s[1..];
    }
  }

  lemma {:induction false} NameBack(e: Engine, name: string, rest: string)
    requires rest == "" || rest[0] != IdentifierQuote(e)
    ensures ReadName(e, QuoteIdentifier(e, name) + rest) == Some((name, rest))
  {
    var q := IdentifierQuote(e);
    var s := QuoteIdentifier(e, name) + rest;
    assert s[1..] == ReplaceAll(name, q, [q, q]) + ([q] + rest);
    QuotedBack(q, name, rest);
    hide ReplaceAll;
  }

  /** A number that is no keyword. */
  predicate Readable(v: Value) { v.Number? ==> NumberText(v.text) && v.text != "NULL" && v.text != "TRUE" && v.text != "FALSE" }

  lemma {:induction false} WordIs(t: string, rest: string)
    requires ',' !in t && ')' !in t && (rest == "" || rest[0] == ',' || rest[0] == ')')
    ensures Word(t + rest) == |t| && (t + rest)[..|t|] == t && (t + rest)[|t|..] == rest
  {
    if t == "" {
      assert t + rest == rest;
    } else {
      assert t[0] in t && (t + rest)[0] == t[0] && (t + rest)[1..] == t[1..] + rest;
      WordIs(t[1..], rest);
    }
  }

  lemma {:induction false} LiteralOf(e: Engine, body: string, text: string, rest: string)
    requires ReadQuoted('\'', e == SqlLexer.Mysql, body + (['\''] + rest)) == Some((text, rest))
    ensures ReadLiteral(e, "'" + body + "'" + rest) == Some((Str(text), rest))
  {
    hide ReadQuoted, Word;
    var s := "'" + body + "'" + rest;
    assert s[0] == '\'' && s[1..] == body + (['\''] + rest);
  }

  lemma {:induction false} TextBack(e: Engine, text: string, rest: string)
    requires rest == "" || rest[0] != '\''
    ensures ReadLiteral(e, QuoteValue(e, Str(text)) + rest) == Some((Str(text), rest))
  {
    hide ReadLiteral, ReplaceAll, ReadQuoted;
    assert ['\'', '\''] == "''";
    if e == SqlLexer.Mysql {
      EscapedBack('\'', text, rest);
      LiteralOf(e, ReplaceAll(ReplaceAll(text, '\\', "\\\\"), '\'', "''"), text, rest);
    } else {
      QuotedBack('\'', text, rest);
      LiteralOf(e, ReplaceAll(text, '\'', "''"), text, rest);
    }
  }

  lemma {:induction false} WordBack(e: Engine, t: string, rest: string)
    requires t != "" && t[0] != '\'' && ',' !in t && ')' !in t && rest != "" && (rest[0] == ',' || rest[0] == ')')
    ensures ReadLiteral(e, t + rest)
         == Some((if t == "NULL" then Null else if t == "TRUE" then Bool(true) else if t == "FALSE" then Bool(false) else Number(t), rest))
  {
    WordIs(t, rest);
    hide Word, ReadQuoted;
    assert (t + rest)[0] == t[0];
  }

  lemma {:induction false} LiteralBack(e: Engine, v: Value, rest: string)
    requires Readable(v) && rest != "" && (rest[0] == ',' || rest[0] == ')')
    ensures ReadLiteral(e, QuoteValue(e, v) + rest) == Some((v, rest))
  {
    match v
    case Str(text) => TextBack(e, text, rest);
    case _ =>
      var word := QuoteValue(e, v);
      assert word != "" && word[0] != '\'' && ',' !in word && ')' !in word;
      hide ReadLiteral;
      WordBack(e, word, rest);
  }

  lemma {:induction false} NoComma(rest: string)
    requires rest != "" && rest[0] == ')'
    ensures After(rest, ", ") == None
  {}

  lemma {:induction false} NamesBack(e: Engine, names: seq<string>, rest: string)
    requires names != [] && rest != "" && rest[0] == ')'
    ensures ReadNames(e, Join(QuoteIdentifiers(e, names), ", ") + rest) == Some((names, rest))
    decreases |names|
  {
    hide ReadName, QuoteIdentifier;
    var texts := QuoteIdentifiers(e, names);
    if |names| == 1 {
      assert names[1..] == [] && texts == [QuoteIdentifier(e, names[0])];
      NameBack(e, names[0], rest);
      NoComma(rest);
      assert names == [names[0]];
    } else {
      var more := Join(QuoteIdentifiers(e, names[1..]), ", ") + rest;
      assert |texts| > 1 && texts[1..] == QuoteIdentifiers(e, names[1..]);
      assert Join(texts, ", ") + rest == QuoteIdentifier(e, names[0]) + (", " + more);
      NameBack(e, names[0], ", " + more);
      AfterOwn(", ", more);
      NamesBack(e, names[1..], rest);
      assert names == [names[0]] + names[1..];
    }
  }

  lemma {:induction false} LiteralsBack(e: Engine, values: seq<Value>, rest: string)
    requires values != [] && (forall v | v in values :: Readable(v)) && rest != "" && rest[0] == ')'
    ensures ReadLiterals(e, Join(QuoteValues(e, values), ", ") + rest) == Some((values, rest))
    decreases |values|
  {
    hide ReadLiteral, QuoteValue, Readable;
    var texts := QuoteValues(e, values);
    if |values| == 1 {
      assert values[1..] == [] && texts == [QuoteValue(e, values[0])];
      LiteralBack(e, values[0], rest);
      NoComma(rest);
      assert values == [values[0]];
    } else {
      var more := Join(QuoteValues(e, values[1..]), ", ") + rest;
      assert |texts| > 1 && texts[1..] == QuoteValues(e, values[1..]);
      assert Join(texts, ", ") + rest == QuoteValue(e, values[0]) + (", " + more);
      LiteralBack(e, values[0], ", " + more);
      AfterOwn(", ", more);
      LiteralsBack(e, values[1..], rest);
      assert values == [values[0]] + values[1..];
    }
  }

  lemma {:induction false} ColumnsBack(e: Engine, names: seq<string>, rest: string)
    requires rest != "" && rest[0] == ')'
    ensures ReadColumns(e, Join(QuoteIdentifiers(e, names), ", ") + rest) == Some((names, rest))
  {
    var text := Join(QuoteIdentifiers(e, names), ", ");
    if names == [] {
      assert text + rest == rest;
    } else {
      NamesBack(e, names, rest);
      FirstName(e, names);
      assert (text + rest)[0] == text[0];
      hide ReadNames, Join, QuoteIdentifiers;
    }
  }

  lemma {:induction false} FirstName(e: Engine, names: seq<string>)
    requires names != []
    ensures var text := Join(QuoteIdentifiers(e, names), ", "); text != "" && text[0] != ')'
  {
    assert QuoteIdentifiers(e, names)[0][0] == IdentifierQuote(e);
    hide QuoteIdentifier;
  }

  lemma {:induction false} ValuesBack(e: Engine, values: seq<Value>, rest: string)
    requires (forall v | v in values :: Readable(v)) && rest != "" && rest[0] == ')'
    ensures ReadValues(e, Join(QuoteValues(e, values), ", ") + rest) == Some((values, rest))
  {
    var text := Join(QuoteValues(e, values), ", ");
    if values == [] {
      assert text + rest == rest;
    } else {
      LiteralsBack(e, values, rest);
      FirstLiteral(e, values);
      assert (text + rest)[0] == text[0];
      hide ReadLiterals, Join, QuoteValues, Readable;
    }
  }

  lemma {:induction false} FirstLiteral(e: Engine, values: seq<Value>)
    requires values != [] && forall v | v in values :: Readable(v)
    ensures var text := Join(QuoteValues(e, values), ", "); text != "" && text[0] != ')'
  {
    var v := values[0];
    assert v in values && Readable(v);
    assert QuoteValue(e, v) != "" && QuoteValue(e, v)[0] != ')';
    hide QuoteValue, Readable;
  }

  /** The names of a table as a statement gives them. */
  function TargetNames(target: Target): seq<string> {
    match target
    case Table(schema, name) => [schema, name]
    case QueryResult => ["export_result"]
  }

  lemma {:induction false} TargetBack(e: Engine, target: Target, rest: string)
    requires rest != "" && rest[0] == ' '
    ensures ReadTarget(e, QuoteTarget(e, target) + rest) == Some((TargetNames(target), rest))
  {
    hide ReadName, QuoteIdentifier;
    match target
    case Table(schema, name) =>
      var more := QuoteIdentifier(e, name) + rest;
      assert QuoteTarget(e, target) + rest == QuoteIdentifier(e, schema) + ("." + more);
      NameBack(e, schema, "." + more);
      AfterOwn(".", more);
      NameBack(e, name, rest);
    case QueryResult =>
      NameBack(e, "export_result", rest);
  }

  /**
   * Whatever its names and texts, an exported `INSERT` is read by its server as the very names, columns
   * and values it was printed for.
   */
  lemma {:induction false} InsertReadsBack(e: Engine, target: Target, columns: seq<string>, row: seq<Value>)
    requires forall v | v in row :: Readable(v)
    ensures ReadInsert(e, Insert(e, target, columns, row)) == Some(Insertion(TargetNames(target), columns, row))
  {
    hide ReadTarget, QuoteTarget, ReadColumns, ReadValues, Join, Readable, QuoteIdentifiers, QuoteValues, TargetNames;
    var names, values := Join(QuoteIdentifiers(e, columns), ", "), Join(QuoteValues(e, row), ", ");
    var s5 := values + ")";
    var s3 := names + (") VALUES (" + s5);
    AfterOwn("INSERT INTO ", QuoteTarget(e, target) + (" (" + s3));
    TargetBack(e, target, " (" + s3);
    AfterOwn(" (", s3);
    ColumnsBack(e, columns, ") VALUES (" + s5);
    AfterOwn(") VALUES (", s5);
    ValuesBack(e, row, ")");
  }

  // ---- What stands under a column ----

  /** The value of a row in a column, null when it has none. */
  ghost predicate IsCell(row: Row, column: string, v: Value) {
    (column in row ==> v == row[column]) && (column !in row ==> v == Null)
  }

  /** The text of the value of a row in a column in a CSV file. */
  ghost predicate IsField(row: Row, column: string, text: string) {
    && (column !in row ==> text == "")
    && (column in row ==> match row[column]
        case Null => text == ""
        case Bool(b) => text == if b then "true" else "false"
        case Number(t) => text == t
        case Str(s) => text == s)
  }

  /** The fields of a line are those of the row, column by column. */
  ghost predicate IsLine(row: Row, columns: seq<string>, fields: seq<string>) {
    |fields| == |columns| && forall i | 0 <= i < |columns| :: IsField(row, columns[i], fields[i])
  }

  /**
   * The import reads a CSV export as its header line and then, for every row in order, one field a
   * column: the text of the row's own value in that column, empty when it is missing or null.
   */
  lemma {:induction false} CsvFieldsAreCells(e: Engine, columns: seq<string>, rows: seq<Row>, d: char, header: bool, target: Target,
                                             chunks: seq<string>)
    requires Csv.IsDelimiter(d) && columns != []
    requires Concat(chunks) == Exported(e, columns, rows, CsvFormat(d, header), target, "")
    requires Csv.AlignedChunks(Csv.START, d, chunks)
    ensures var read, first := Csv.Rows(d, chunks), if header then 1 else 0;
      && |read| == first + |rows| && (header ==> read[0] == columns)
      && forall k | 0 <= k < |rows| :: IsLine(rows[k], columns, read[first..][k])
  {
    CsvExportRoundTrip(e, columns, rows, d, header, target, chunks);
    var read, first := Csv.Rows(d, chunks), if header then 1 else 0;
    hide Csv.Rows, Exported, Csv.AlignedChunks;
    forall k | 0 <= k < |rows|
      ensures IsLine(rows[k], columns, read[first..][k])
    {
      assert read[first..][k] == CsvCells(Cells(columns, rows[k]));
      CellsAreFields(rows[k], columns);
    }
  }

  lemma {:induction false} CellsAreFields(row: Row, columns: seq<string>)
    ensures IsLine(row, columns, CsvCells(Cells(columns, row)))
  {
    assert forall i | 0 <= i < |columns| :: CsvCells(Cells(columns, row))[i] == CsvValue(Cells(columns, row)[i]);
  }

  lemma {:induction false} CellsAre(row: Row, columns: seq<string>)
    requires forall c | c in row :: Readable(row[c])
    ensures var cells := Cells(columns, row);
      && |cells| == |columns| && (forall i | 0 <= i < |columns| :: IsCell(row, columns[i], cells[i]))
      && forall v | v in cells :: Readable(v)
  {
    hide Readable;
    assert Readable(Null) by { NullReadable(); }
  }

  lemma {:induction false} NullReadable()
    ensures Readable(Null)
  {}

  /**
   * The `k`-th statement of an SQL export is read by its server as one row for the exported columns,
   * with the row's own value, or null, for each column.
   */
  lemma {:induction false} InsertsHoldCells(e: Engine, columns: seq<string>, rows: seq<Row>, target: Target, k: nat)
    requires k < |rows| && forall c | c in rows[k] :: Readable(rows[k][c])
    ensures var inserts := Inserts(e, target, columns, AllCells(columns, rows));
      && |inserts| == |rows|
      && var read := ReadInsert(e, inserts[k]);
      && read.Some? && read.value.target == TargetNames(target) && read.value.columns == columns
      && |read.value.values| == |columns|
      && forall i | 0 <= i < |columns| :: IsCell(rows[k], columns[i], read.value.values[i])
  {
    InsertAt(e, target, columns, AllCells(columns, rows), k);
    var row := Cells(columns, rows[k]);
    CellsAre(rows[k], columns);
    hide Cells, Readable, IsCell;
    InsertReadsBack(e, target, columns, row);
    hide Inserts, Insert, ReadInsert;
  }

  lemma {:induction false} InsertAt(e: Engine, target: Target, columns: seq<string>, rows: seq<seq<Value>>, k: nat)
    requires k < |rows|
    ensures |Inserts(e, target, columns, rows)| == |rows|
    ensures Inserts(e, target, columns, rows)[k] == Insert(e, target, columns, rows[k])
    decreases |rows|
  {
    hide Insert;
    if k > 0 {
      InsertAt(e, target, columns, rows[1..], k - 1);
    } else {
      InsertsSize(e, target, columns, rows);
    }
  }

  lemma {:induction false} InsertsSize(e: Engine, target: Target, columns: seq<string>, rows: seq<seq<Value>>)
    ensures |Inserts(e, target, columns, rows)| == |rows|
  {
    hide Insert;
    if rows != [] {
      InsertsSize(e, target, columns, rows[1..]);
    }
  }

  // ---- JSON ----

  /** How deep in brackets and braces, or in a string, one is after `c`. */
  datatype Nesting = Nesting(depth: nat, inString: bool)

  /** The end of the element of an array that `s` is in the middle of. */
  function ElementEnd(n: Nesting, s: string): (k: nat)
    ensures k <= |s|
    decreases |s|
  {
    if s == "" then 0
    else if n.inString then
      if s[0] == '\\' && |s| > 1 then 2 + ElementEnd(n, s[2..])
      else 1 + ElementEnd(n.(inString := s[0] != '"'), s[1..])
    else if n.depth == 0 && (s[0] == ',' || s[0] == ']' || s[0] == '}') then 0
    else if s[0] == '"' then 1 + ElementEnd(n.(inString := true), s[1..])
    else if s[0] == '{' || s[0] == '[' then 1 + ElementEnd(n.(depth := n.depth + 1), s[1..])
    else if s[0] == '}' || s[0] == ']' then 1 + ElementEnd(n.(depth := n.depth - 1), s[1..])
    else 1 + ElementEnd(n, s[1..])
  }

  /** `s` ends what is open and nothing else, as a JSON value does. */
  predicate Closes(n: Nesting, s: string)
    decreases |s|
  {
    if s == "" then n == Nesting(0, false)
    else if n.inString then
      if s[0] == '\\' then |s| > 1 && Closes(n, s[2..]) else Closes(n.(inString := s[0] != '"'), s[1..])
    else if s[0] == '"' then Closes(n.(inString := true), s[1..])
    else if s[0] == '{' || s[0] == '[' then Closes(n.(depth := n.depth + 1), s[1..])
    else if s[0] == '}' || s[0] == ']' then n.depth > 0 && Closes(n.(depth := n.depth - 1), s[1..])
    else (n.depth > 0 || s[0] != ',') && Closes(n, s[1..])
  }

  predicate IsElement(s: string) { s != "" && Closes(Nesting(0, false), s) }

  /** The elements up to the end of the array, and the text behind it. */
  function ReadElements(s: string): (r: Option<(seq<string>, string)>)
    decreases |s|
  {
    var k := ElementEnd(Nesting(0, false), s);
    if k == |s| then None
    else if s[k] == ']' then Some(([s[..k]], s[k + 1..]))
    else if s[k] != ',' then None
    else match ReadElements(s[k + 1..])
      case None => None
      case Some((elements, rest)) => Some(([s[..k]] + elements, rest))
  }

  /** A file of one array. */
  function ReadArray(s: string): Option<seq<string>> {
    if s == "" || s[0] != '[' then None
    else if s[1..] == "]\n" then Some([])
    else match ReadElements(s[1..])
      case Some((elements, rest)) => if rest == "\n" then Some(elements) else None
      case None => None
  }

  lemma {:induction false} ElementIs(n: Nesting, s: string, rest: string)
    requires Closes(n, s) && rest != "" && (rest[0] == ',' || rest[0] == ']')
    ensures ElementEnd(n, s + rest) == |s|
    decreases |s|
  {
    var t := s + rest;
    if s == "" {
      assert t == rest;
    } else {
      assert t[0] == s[0] && t[1..] == s[1..] + rest;
      if n.inString && s[0] == '\\' {
        assert t[2..] == s[2..] + rest;
        ElementIs(n, s[2..], rest);
      } else if n.inString {
        ElementIs(n.(inString := s[0] != '"'), s[1..], rest);
      } else if s[0] == '"' {
        ElementIs(n.(inString := true), s[1..], rest);
      } else if s[0] == '{' || s[0] == '[' {
        ElementIs(n.(depth := n.depth + 1), s[1..], rest);
      } else if s[0] == '}' || s[0] == ']' {
        ElementIs(n.(depth := n.depth - 1), s[1..], rest);
      } else {
        ElementIs(n, s[1..], rest);
      }
    }
  }

  lemma {:induction false} ElementsBack(elements: seq<string>, rest: string)
    requires elements != [] && forall x | x in elements :: IsElement(x)
    ensures ReadElements(Join(elements, ",") + ("]" + rest)) == Some((elements, rest))
    decreases |elements|
  {
    hide ElementEnd, Closes;
    var x := elements[0];
    assert x in elements && IsElement(x);
    if |elements| == 1 {
      var s := x + ("]" + rest);
      assert Join(elements, ",") == x && elements == [x];
      ElementIs(Nesting(0, false), x, "]" + rest);
      assert s[|x|] == ']' && s[..|x|] == x && s[|x| + 1..] == rest;
    } else {
      var more := Join(elements[1..], ",") + ("]" + rest);
      var s := x + ("," + more);
      assert Join(elements, ",") + ("]" + rest) == s;
      ElementIs(Nesting(0, false), x, "," + more);
      assert s[|x|] == ',' && s[..|x|] == x && s[|x| + 1..] == more;
      ElementsBack(elements[1..], rest);
      assert elements == [x] + elements[1..];
    }
  }

  /** The object of a row: the columns with the row's own values, or null. */
  ghost predicate IsObject(columns: seq<string>, row: Row, stringify: Stringify, text: string) {
    exists cells :: IsCells(columns, row, cells) && text == stringify(columns, cells)
  }

  ghost predicate IsCells(columns: seq<string>, row: Row, cells: seq<Value>) {
    |cells| == |columns| && forall i | 0 <= i < |columns| :: IsCell(row, columns[i], cells[i])
  }

  /**
   * A JSON export is an array of one object a row, in order, each of the exported columns with the row's
   * own values, whenever the host prints well-formed values.
   */
  lemma {:induction false} JsonHoldsCells(e: Engine, columns: seq<string>, rows: seq<Row>, stringify: Stringify, target: Target)
    requires forall cells :: IsElement(stringify(columns, cells))
    ensures var read := ReadArray(Exported(e, columns, rows, JsonFormat(stringify), target, ""));
      && read.Some? && |read.value| == |rows|
      && forall k | 0 <= k < |rows| :: IsObject(columns, rows[k], stringify, read.value[k])
  {
    var objects := Objects(columns, rows, stringify);
    assert forall i | 0 <= i < |objects| :: objects[i] == stringify(columns, Cells(columns, rows[i]));
    hide IsElement;
    ArrayBack(objects);
    assert Exported(e, columns, rows, JsonFormat(stringify), target, "") == "[" + Join(objects, ",") + "]\n";
    hide ReadArray, Exported, Objects;
    forall k | 0 <= k < |rows|
      ensures IsObject(columns, rows[k], stringify, objects[k])
    {
      assert IsCells(columns, rows[k], Cells(columns, rows[k]));
    }
  }

  lemma {:induction false} ArrayBack(objects: seq<string>)
    requires forall x | x in objects :: IsElement(x)
    ensures ReadArray("[" + Join(objects, ",") + "]\n") == Some(objects)
  {
    hide ReadElements, IsElement;
    var text := "[" + Join(objects, ",") + "]\n";
    assert text[1..] == Join(objects, ",") + ("]" + "\n");
    if objects == [] {
      assert Join(objects, ",") == "" && text[1..] == "]\n";
    } else {
      ElementsBack(objects, "\n");
      NotEmptyArray(objects);
    }
  }

  lemma {:induction false} NotEmptyArray(objects: seq<string>)
    requires objects != [] && forall x | x in objects :: IsElement(x)
    ensures Join(objects, ",") + ("]" + "\n") != "]\n"
  {
    var x := objects[0];
    assert x in objects && IsElement(x);
    assert (Join(objects, ",") + ("]" + "\n"))[0] == x[0];
    assert x[0] != ']';
  }
}
