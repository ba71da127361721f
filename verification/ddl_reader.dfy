/** A printed table definition read back: its columns with their types, nullability and defaults, and its key. */
module DdlReader {
  import opened Text
  import opened SqlDump
  import opened TableDdl
  import opened ExportReader
  import SqlLexer

  type Engine = SqlLexer.Engine

  // ---- Reading ----

  /** Where `text` begins first; the end of `s` when it does not. */
  function Find(s: string, text: string): (i: nat)
    ensures i <= |s|
    ensures i < |s| ==> text <= s[i..]
  {
    if s == "" || text <= s then 0 else 1 + Find(s[1..], text)
  }

  predicate EndsIn(s: string, text: string) { |text| <= |s| && s[|s| - |text|..] == text }

  /** The type of a column, with NOT NULL behind it or not. */
  function ReadType(name: string, s: string, default_: string): Column {
    if EndsIn(s, " NOT NULL") then Column(name, s[..|s| - 9], false, default_) else Column(name, s, true, default_)
  }

  function ReadSpec(name: string, s: string): Column {
    var i := Find(s, " DEFAULT ");
    if i + 9 <= |s| then ReadType(name, s[..i], s[i + 9..]) else ReadType(name, s, "")
  }

  /** A column up to the end of its line, where a comma stands when more lines follow. */
  function ReadColumn(e: Engine, s: string): (r: Option<(Column, string)>)
    ensures r.Some? ==> |r.value.1| < |s|
  {
    match ReadName(e, s)
    case None => None
    case Some((name, t)) =>
      match After(t, " ")
      case None => None
      case Some(u) =>
        var n := Find(u, "\n");
        if u[n..] == "\n)" then Some((ReadSpec(name, u[..n]), u[n..]))
        else if n > 0 && u[n - 1] == ',' then Some((ReadSpec(name, u[..n - 1]), u[n..]))
        else None
  }

  /** The primary key: its name, which only PostgreSQL prints, and its columns. */
  datatype KeyRead = KeyRead(name: Option<string>, columns: seq<string>)

  function ReadKeyColumns(e: Engine, name: Option<string>, s: string): Option<KeyRead> {
    match After(s, "PRIMARY KEY (")
    case None => None
    case Some(t) =>
      match ReadColumns(e, t)
      case None => None
      case Some((columns, rest)) => if rest == ")\n)" then Some(KeyRead(name, columns)) else None
  }

  function ReadKey(e: Engine, s: string): Option<KeyRead> {
    match After(s, "CONSTRAINT ")
    case None => ReadKeyColumns(e, None, s)
    case Some(t) =>
      match ReadName(e, t)
      case None => None
      case Some((name, u)) =>
        match After(u, " ")
        case None => None
        case Some(v) => ReadKeyColumns(e, Some(name), v)
  }

  /** All lines: columns, then the key, if there is one. */
  function ReadLines(e: Engine, s: string): Option<(seq<Column>, Option<KeyRead>)>
    decreases |s|
  {
    if s == "" || s[0] != IdentifierQuote(e) then
      match ReadKey(e, s)
      case None => None
      case Some(key) => Some(([], Some(key)))
    else match ReadColumn(e, s)
      case None => None
      case Some((column, t)) =>
        if t == "\n)" then Some(([column], None))
        else match After(t, "\n  ")
          case None => None
          case Some(u) =>
            match ReadLines(e, u)
            case None => None
            case Some((columns, key)) => Some(([column] + columns, key))
  }

  datatype TableRead = TableRead(target: seq<string>, columns: seq<Column>, key: Option<KeyRead>)

  function ReadTable(e: Engine, s: string): Option<TableRead> {
    match After(s, "CREATE TABLE ")
    case None => None
    case Some(s1) =>
      match ReadTarget(e, s1)
      case None => None
      case Some((target, s2)) =>
        match After(s2, " (\n  ")
        case None => None
        case Some(s3) =>
          match ReadLines(e, s3)
          case None => None
          case Some((columns, key)) => Some(TableRead(target, columns, key))
  }

  // ---- Reading what was printed ----

  /** `text` begins nowhere in `s` before its end. */
  predicate Nowhere(s: string, text: string) { forall i | 0 <= i < |s| :: !(text <= s[i..]) }

  lemma {:induction false} FindIs(s: string, text: string, rest: string)
    requires text != "" && forall i | 0 <= i < |s| :: !(text <= (s + (text + rest))[i..])
    ensures Find(s + (text + rest), text) == |s|
    decreases |s|
  {
    var t := s + (text + rest);
    if s == "" {
      assert t == text + rest && text <= t;
    } else {
      assert t[0..] == t && !(text <= t);
      assert t[1..] == s[1..] + (text + rest);
      forall i | 0 <= i < |s[1..]|
        ensures !(text <= t[1..][i..])
      {
        assert t[1..][i..] == t[i + 1..];
      }
      FindIs(s[1..], text, rest);
    }
  }

  lemma {:induction false} FindNone(s: string, text: string)
    requires text != "" && Nowhere(s, text)
    ensures Find(s, text) == |s|
  {
    if s != "" {
      assert s[0..] == s;
      forall i | 0 <= i < |s[1..]|
        ensures !(text <= s[1..][i..])
      {
        assert s[1..][i..] == s[i + 1..];
      }
      FindNone(s[1..], text);
    }
  }

  /** The type text of a server: one line, without the keywords that follow a type. */
  predicate PlainType(t: string) { '\n' !in t && Nowhere(t, " DEFAULT") && !EndsIn(t, " NOT NULL") }

  lemma {:induction false} NoDefault(t: string, i: nat, rest: string)
    requires PlainType(t) && i < |t| && (rest == "" || rest[0] == ' ')
    ensures !(" DEFAULT " <= (t + rest)[i..])
  {
    var u := (t + rest)[i..];
    assert u == t[i..] + rest;
    if i + 8 <= |t| {
      assert !(" DEFAULT" <= t[i..]);
      assert u[..8] == t[i..][..8];
      assert " DEFAULT "[..8] == " DEFAULT";
    } else if rest != "" {
      assert u[|t| - i] == rest[0] == ' ';
      assert " DEFAULT "[|t| - i] != ' ';
    }
  }

  function NotNull(nullable: bool): string { if nullable then "" else " NOT NULL" }

  lemma {:induction false} FrontNoDefault(t: string, nullable: bool, i: nat, rest: string)
    requires PlainType(t) && (rest == "" || rest[0] == ' ')
    requires i < |t + NotNull(nullable)|
    ensures !(" DEFAULT " <= (t + NotNull(nullable) + rest)[i..])
  {
    var notNull := NotNull(nullable);
    assert t + notNull + rest == t + (notNull + rest);
    if i < |t| {
      NoDefault(t, i, notNull + rest);
    } else {
      var u := (t + notNull + rest)[i..];
      var k := i - |t|;
      assert u == " NOT NULL"[k..] + rest;
      assert u[0] == " NOT NULL"[k] && (k < 8 ==> u[1] == " NOT NULL"[k + 1]);
      assert " NOT NULL"[k] == ' ' ==> k < 8 && " NOT NULL"[k + 1] == 'N';
      assert " DEFAULT "[0] == ' ' && " DEFAULT "[1] == 'D';
    }
  }

  lemma {:induction false} TypeBack(name: string, t: string, nullable: bool, default_: string)
    requires PlainType(t)
    ensures ReadType(name, t + NotNull(nullable), default_) == Column(name, t, nullable, default_)
  {
    if nullable {
      assert t + "" == t;
    } else {
      var s := t + " NOT NULL";
      assert s[|s| - 9..] == " NOT NULL" && s[..|s| - 9] == t;
    }
  }

  lemma {:induction false} SpecDefault(name: string, t: string, nullable: bool, default_: string)
    requires PlainType(t)
    ensures ReadSpec(name, t + NotNull(nullable) + (" DEFAULT " + default_)) == Column(name, t, nullable, default_)
  {
    var front := t + NotNull(nullable);
    var s := front + (" DEFAULT " + default_);
    forall i | 0 <= i < |front|
      ensures !(" DEFAULT " <= s[i..])
    {
      FrontNoDefault(t, nullable, i, " DEFAULT " + default_);
    }
    FindIs(front, " DEFAULT ", default_);
    assert s[..|front|] == front && s[|front| + 9..] == default_;
    TypeBack(name, t, nullable, default_);
    hide Find, ReadType, PlainType;
  }

  lemma {:induction false} SpecPlain(name: string, t: string, nullable: bool)
    requires PlainType(t)
    ensures ReadSpec(name, t + NotNull(nullable)) == Column(name, t, nullable, "")
  {
    var front := t + NotNull(nullable);
    forall i | 0 <= i < |front|
      ensures !(" DEFAULT " <= front[i..])
    {
      FrontNoDefault(t, nullable, i, "");
      assert front + "" == front;
    }
    FindNone(front, " DEFAULT ");
    TypeBack(name, t, nullable, "");
    hide Find, ReadType, PlainType;
  }

  /** The specification behind the name of a column. */
  function Spec(c: Column): string {
    c.dataType + ((if c.nullable then "" else " NOT NULL") + if c.defaultExpression != "" then " DEFAULT " + c.defaultExpression else "")
  }

  lemma {:induction false} SpecBack(c: Column)
    requires PlainType(c.dataType)
    ensures ReadSpec(c.name, Spec(c)) == c
  {
    hide ReadSpec, PlainType;
    if c.defaultExpression != "" {
      SpecDefault(c.name, c.dataType, c.nullable, c.defaultExpression);
      Assoc(c.dataType, NotNull(c.nullable), " DEFAULT " + c.defaultExpression);
    } else {
      SpecPlain(c.name, c.dataType, c.nullable);
      assert NotNull(c.nullable) + "" == NotNull(c.nullable);
    }
  }

  // ---- Lines ----

  /** A described column on one line. */
  predicate OneLine(c: Column) { PlainType(c.dataType) && '\n' !in c.defaultExpression }

  lemma {:induction false} NoLineEnd(s: string)
    requires '\n' !in s
    ensures Find(s + "\n", "\n") == |s|
    ensures forall rest: string :: Find(s + ("\n" + rest), "\n") == |s|
  {
    forall rest: string
      ensures Find(s + ("\n" + rest), "\n") == |s|
    {
      forall i | 0 <= i < |s|
        ensures !("\n" <= (s + ("\n" + rest))[i..])
      {
        assert (s + ("\n" + rest))[i..][0] == s[i];
      }
      FindIs(s, "\n", rest);
    }
    assert s + ("\n" + "") == s + "\n";
  }

  lemma {:induction false} SpecOneLine(c: Column)
    requires OneLine(c)
    ensures '\n' !in Spec(c)
  {}

  /** The last line, before the closing parenthesis. */
  lemma {:induction false} LastColumnBack(e: Engine, c: Column)
    requires OneLine(c)
    ensures ReadColumn(e, ColumnLine(e, c) + "\n)") == Some((c, "\n)"))
  {
    hide ReadName, QuoteIdentifier, Find, ReadSpec, OneLine;
    var u := Spec(c) + ("\n" + ")");
    assert ColumnLine(e, c) + "\n)" == QuoteIdentifier(e, c.name) + (" " + u);
    NameBack(e, c.name, " " + u);
    AfterOwn(" ", u);
    SpecOneLine(c);
    NoLineEnd(Spec(c));
    assert u[..|Spec(c)|] == Spec(c) && u[|Spec(c)|..] == "\n)";
    SpecBack(c) by { PlainOf(c); }
  }

  lemma {:induction false} PlainOf(c: Column)
    requires OneLine(c)
    ensures PlainType(c.dataType)
  {}

  /** What follows the name of a column, cut at the comma and the line end. */
  lemma {:induction false} CutAtComma(spec: string, rest: string)
    requires '\n' !in spec
    ensures var u := spec + ("," + ("\n" + ("  " + rest)));
      && Find(u, "\n") == |spec| + 1 && u[|spec| + 1..] == "\n  " + rest && u[|spec|] == ',' && u[..|spec|] == spec
      && u[|spec| + 1..] != "\n)"
  {
    var line := spec + ",";
    var u := spec + ("," + ("\n" + ("  " + rest)));
    assert u == line + ("\n" + ("  " + rest));
    NoLineEnd(line);
    hide Find;
    assert u[|line|..] == "\n" + ("  " + rest) == "\n  " + rest;
    assert ("\n  " + rest)[1] == ' ' && "\n)"[1] == ')';
  }

  /** A line before others. */
  lemma {:induction false} ColumnBack(e: Engine, c: Column, rest: string)
    requires OneLine(c)
    ensures ReadColumn(e, ColumnLine(e, c) + (",\n  " + rest)) == Some((c, "\n  " + rest))
  {
    hide ReadName, QuoteIdentifier, Find, ReadSpec, OneLine, After, PlainType;
    SpecOneLine(c);
    SpecBack(c) by { PlainOf(c); }
    var spec := Spec(c);
    var u := spec + ("," + ("\n" + ("  " + rest)));
    LineText(e, c, rest);
    hide Spec, ColumnLine;
    NameBack(e, c.name, " " + u);
    AfterOwn(" ", u);
    CutAtComma(spec, rest);
  }

  lemma {:induction false} LineText(e: Engine, c: Column, rest: string)
    ensures ColumnLine(e, c) + (",\n  " + rest)
         == QuoteIdentifier(e, c.name) + (" " + (Spec(c) + ("," + ("\n" + ("  " + rest)))))
  {
    hide QuoteIdentifier;
    assert ColumnLine(e, c) == QuoteIdentifier(e, c.name) + (" " + Spec(c));
    hide ColumnLine, Spec;
    assert ",\n  " + rest == "," + ("\n" + ("  " + rest));
  }

  lemma {:induction false} KeyColumnsBack(e: Engine, name: Option<string>, columns: seq<string>)
    ensures ReadKeyColumns(e, name, "PRIMARY KEY (" + (Join(QuoteIdentifiers(e, columns), ", ") + ")\n)")) == Some(KeyRead(name, columns))
  {
    hide ReadColumns, Join, QuoteIdentifiers;
    AfterOwn("PRIMARY KEY (", Join(QuoteIdentifiers(e, columns), ", ") + ")\n)");
    ColumnsBack(e, columns, ")\n)");
  }

  lemma {:induction false} KeyBack(e: Engine, k: Key)
    ensures ReadKey(e, KeyLine(e, k) + "\n)")
         == Some(KeyRead(if e == SqlLexer.Postgresql then Some(k.name) else None, k.columns))
  {
    hide ReadName, ReadKeyColumns, QuoteIdentifier, Join, QuoteIdentifiers;
    var v := "PRIMARY KEY (" + (Join(QuoteIdentifiers(e, k.columns), ", ") + ")\n)");
    if e == SqlLexer.Postgresql {
      KeyColumnsBack(e, Some(k.name), k.columns);
      assert KeyLine(e, k) + "\n)" == "CONSTRAINT " + (QuoteIdentifier(e, k.name) + (" " + v));
      AfterOwn("CONSTRAINT ", QuoteIdentifier(e, k.name) + (" " + v));
      NameBack(e, k.name, " " + v);
      AfterOwn(" ", v);
    } else {
      KeyColumnsBack(e, None, k.columns);
      assert KeyLine(e, k) + "\n)" == v;
      assert v[0] == 'P' && "CONSTRAINT "[0] == 'C' && !("CONSTRAINT " <= v);
    }
  }

  function KeyOf(e: Engine, key: Option<Key>): Option<KeyRead> {
    match key
    case Some(k) => Some(KeyRead(if e == SqlLexer.Postgresql then Some(k.name) else None, k.columns))
    case None => None
  }

  lemma {:induction false} FirstOfLine(e: Engine, columns: seq<Column>, key: Option<Key>)
    ensures var text := Join(ColumnLines(e, columns) + KeyLines(e, key), ",\n  ") + "\n)";
      && text != ""
      && (columns != [] ==> text[0] == IdentifierQuote(e))
      && (columns == [] && key.Some? ==> text[0] != IdentifierQuote(e))
  {
    hide QuoteIdentifiers;
    if columns != [] {
      assert ColumnLine(e, columns[0])[0] == IdentifierQuote(e);
      assert (ColumnLines(e, columns) + KeyLines(e, key))[0] == ColumnLine(e, columns[0]);
    }
  }

  lemma {:induction false} LinesBack(e: Engine, columns: seq<Column>, key: Option<Key>)
    requires (columns != [] || key.Some?) && forall c | c in columns :: OneLine(c)
    ensures ReadLines(e, Join(ColumnLines(e, columns) + KeyLines(e, key), ",\n  ") + "\n)") == Some((columns, KeyOf(e, key)))
    decreases |columns|
  {
    hide ReadColumn, ReadKey, ColumnLine, KeyLine, OneLine;
    FirstOfLine(e, columns, key);
    if columns == [] {
      var line := KeyLine(e, key.value);
      assert ColumnLines(e, columns) + KeyLines(e, key) == [line] && Join([line], ",\n  ") == line;
      KeyBack(e, key.value);
    } else {
      var c, more := columns[0], ColumnLines(e, columns[1..]) + KeyLines(e, key);
      var lines := ColumnLines(e, columns) + KeyLines(e, key);
      assert lines == [ColumnLine(e, c)] + more && lines[1..] == more;
      if more == [] {
        assert columns[1..] == [] && key == None && Join(lines, ",\n  ") == ColumnLine(e, c);
        LastColumnBack(e, c);
        assert columns == [c];
      } else {
        var rest := Join(more, ",\n  ") + "\n)";
        assert Join(lines, ",\n  ") + "\n)" == ColumnLine(e, c) + (",\n  " + rest);
        FirstOfLine(e, columns[1..], key);
        ColumnBack(e, c, rest);
        assert "\n  " + rest != "\n)" by { assert ("\n  " + rest)[1] == ' '; }
        AfterOwn("\n  ", rest);
        LinesBack(e, columns[1..], key);
        assert columns == [c] + columns[1..];
      }
    }
  }

  /**
   * A printed definition is read back as the table it was printed for: its names, its columns in order
   * with type, nullability and default, and its key. Types and defaults are texts of one line.
   */
  lemma {:induction false} TableReadsBack(e: Engine, schema: string, name: string, columns: seq<Column>, key: Option<Key>)
    requires columns != [] && forall c | c in columns :: OneLine(c)
    ensures ReadTable(e, Create(e, schema, name, columns, key)) == Some(TableRead([schema, name], columns, KeyOf(e, key)))
  {
    hide ReadTarget, ReadLines, QuoteTarget, Join, ColumnLines, KeyLines, OneLine, KeyOf;
    var target := QuoteTarget(e, Table(schema, name));
    var s3 := Join(ColumnLines(e, columns) + KeyLines(e, key), ",\n  ") + "\n)";
    assert Create(e, schema, name, columns, key) == "CREATE TABLE " + (target + (" (\n  " + s3));
    AfterOwn("CREATE TABLE ", target + (" (\n  " + s3));
    TargetBack(e, Table(schema, name), " (\n  " + s3);
    AfterOwn(" (\n  ", s3);
    LinesBack(e, columns, key);
  }
}
