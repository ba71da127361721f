/**
 * The key columns a page query is ordered by, as they are described. PostgreSQL describes the columns
 * of an index as the server prints them, so a name that is not plain comes with quotes around it.
 */
module KeyColumns {
  import opened Text
  import opened SqlLexer
  import opened DataPaging
  import opened DataQuery
  import SqlDump

  /** A name the server prints without quotes, unless it is a reserved word. */
  predicate PlainName(name: string) {
    name != "" && !('0' <= name[0] <= '9') && forall c | c in name :: 'a' <= c <= 'z' || '0' <= c <= '9' || c == '_'
  }

  /** The described name of an index column. */
  function Described(e: Engine, reserved: set<string>, name: string): string {
    if e == Mysql || (PlainName(name) && name !in reserved) then name else SqlDump.QuoteIdentifier(e, name)
  }

  function DescribedAll(e: Engine, reserved: set<string>, names: seq<string>): seq<string> {
    seq(|names|, i requires 0 <= i < |names| => Described(e, reserved, names[i]))
  }

  /** Every column of the ORDER BY is one of the table. */
  ghost predicate SortsExist(sorts: seq<Sort>, columns: set<string>) {
    forall s | s in sorts :: s.column in columns
  }

  /** An accepted request is ordered by columns of the table if and only if the described key columns are such. */
  lemma SortsExistExactly(source: Source, request: Request, primary: seq<string>)
    requires ValidSort(request, source)
    ensures SortsExist(CompleteSorts(request.sort, primary), source.kinds.Keys)
            <==> forall name | name in primary :: name in source.kinds
  {
    var own, keys := AddSorts([], request.sort), Ascending(primary);
    var all := CompleteSorts(request.sort, primary);
    AddSortsCovers([], request.sort);
    AddSortsCovers(own, keys);
    assert forall i | 0 <= i < |primary| :: keys[i] in keys && keys[i].column == primary[i];
    forall name | name in primary
      ensures exists s :: s in all && s.column == name
    {
      var i :| 0 <= i < |primary| && primary[i] == name;
      assert keys[i] in keys && HasColumn(all, keys[i].column);
    }
    forall s | s in all
      ensures s in request.sort || s.column in primary
    {
      if s in keys {
        assert exists i :: 0 <= i < |keys| && keys[i] == s;
      }
    }
  }

  lemma QuotedDiffers(e: Engine, name: string)
    ensures SqlDump.QuoteIdentifier(e, name) != name
  {
    var q := SqlDump.IdentifierQuote(e);
    ReplaceAllLength(name, q, [q, q]);
    assert |SqlDump.QuoteIdentifier(e, name)| >= |name| + 2;
  }

  /**
   * For a table with the key `keys`: the page is ordered by existing columns if and only if every key
   * name is described as it is, or its quoted form happens to be a column too. MySQL tables always are.
   */
  lemma PageOrderExists(e: Engine, reserved: set<string>, source: Source, request: Request, keys: seq<string>)
    requires ValidSort(request, source) && forall name | name in keys :: name in source.kinds
    ensures SortsExist(CompleteSorts(request.sort, DescribedAll(e, reserved, keys)), source.kinds.Keys)
            <==> forall name | name in keys ::
              e == Mysql || (PlainName(name) && name !in reserved) || SqlDump.QuoteIdentifier(e, name) in source.kinds
  {
    hide CompleteSorts, PlainName, SqlDump.QuoteIdentifier;
    var described := DescribedAll(e, reserved, keys);
    SortsExistExactly(source, request, described);
    assert forall i | 0 <= i < |keys| :: described[i] == Described(e, reserved, keys[i]) && described[i] in described && keys[i] in keys;
    assert forall name | name in described :: exists i :: 0 <= i < |keys| && name == Described(e, reserved, keys[i]) && keys[i] in keys;
    assert forall name | name in keys :: exists i :: 0 <= i < |keys| && name == keys[i];
  }

  lemma {:induction false} NothingReplaced(s: string, c: char, r: string)
    requires c !in s
    ensures ReplaceAll(s, c, r) == s
  {
    if s != "" {
      NothingReplaced(s[1..], c, r);
    }
  }

  /** Quoting a quoted name keeps its quotes, doubled. */
  lemma QuotedTwice(name: string)
    requires '"' !in name
    ensures SqlDump.QuoteIdentifier(Postgresql, name) == "\"" + name + "\""
    ensures SqlDump.QuoteIdentifier(Postgresql, "\"" + name + "\"") == "\"\"\"" + name + "\"\"\""
  {
    NothingReplaced(name, '"', "\"\"");
    ReplaceAllAppend("\"", name, '"', "\"\"");
    ReplaceAllAppend("\"" + name, "\"", '"', "\"\"");
    assert "\""[1..] == "" && ReplaceAll("\"", '"', "\"\"") == "\"\"" + "" == "\"\"";
    hide ReplaceAll;
    assert "\"" + ("\"\"" + name + "\"\"") + "\"" == "\"\"\"" + name + "\"\"\"";
  }

  /**
   * A table whose only key column is, say, `userId`: every page of it is ordered by a column that does
   * not exist, the quoted name with its quotes.
   */
  lemma QuotedKeyFails(reserved: set<string>, name: string, kind: Kind)
    requires (!PlainName(name) || name in reserved) && '"' !in name
    ensures var source := Source("public", "accounts", [name], map[name := kind]);
      var sorts := CompleteSorts([], DescribedAll(Postgresql, reserved, [name]));
      && ValidSort(Request([], [], "", [], 1, 0), source) && !SortsExist(sorts, source.kinds.Keys)
      && OrderText(Postgresql, sorts) == " ORDER BY " + ("\"\"\"" + name + "\"\"\"" + " ASC")
  {
    QuotedTwice(name);
    hide SqlDump.QuoteIdentifier, PlainName, CompleteSorts;
    var quoted := "\"" + name + "\"";
    assert DescribedAll(Postgresql, reserved, [name]) == [quoted];
    OneSort(quoted);
    var sorts := [Sort(quoted, false)];
    assert sorts[0] in sorts && |quoted| != |name|;
    assert SortTexts(Postgresql, sorts) == ["\"\"\"" + name + "\"\"\"" + " ASC"];
  }

  lemma OneSort(column: string)
    ensures CompleteSorts([], [column]) == [Sort(column, false)]
  {
    var keys := Ascending([column]);
    assert keys == [Sort(column, false)] && keys[1..] == [] && AddSorts([], []) == [];
    assert [] + [keys[0]] == [Sort(column, false)];
    assert AddSorts([keys[0]], []) == [keys[0]];
  }
}
