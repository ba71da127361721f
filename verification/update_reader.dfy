/** An update statement read back: the columns set with their values and the key that is asked for. */
module UpdateReader {
  import opened Text
  import opened DataQuery
  import opened QueryBinding
  import opened QueryReader
  import opened QueryText
  import opened UpdateText
  import B = BulkDelete
  import R = RowUpdate
  import RowRequests
  import SqlDump
  import SqlLexer
  import StatementReader

  type Engine = SqlLexer.Engine

  datatype Statement = Statement(schema: string, name: string, sets: seq<Pair>, keys: seq<Pair>, returning: bool)

  // ---- Reading ----

  /** `column = value`, again after each separator. */
  function ReadPairs(e: Engine, separator: string, s: Symbols): (r: Option<(seq<Pair>, Symbols)>)
    decreases |s|
  {
    match ReadName(e, s)
    case None => None
    case Some((column, t)) =>
      match After(t, " = ")
      case None => None
      case Some(u) =>
        match ReadValue(u)
        case None => None
        case Some((value, v)) =>
          match After(v, separator)
          case None => Some(([(column, value)], v))
          case Some(w) =>
            match ReadPairs(e, separator, w)
            case None => None
            case Some((pairs, rest)) => Some(([(column, value)] + pairs, rest))
  }

  function ReadKeys(e: Engine, schema: string, name: string, sets: seq<Pair>, s: Symbols): Option<Statement> {
    match After(s, " WHERE ")
    case None => None
    case Some(t) =>
      match ReadPairs(e, " AND ", t)
      case None => None
      case Some((keys, rest)) =>
        if rest == [] then Some(Statement(schema, name, sets, keys, false))
        else if rest == Letters(" RETURNING *") then Some(Statement(schema, name, sets, keys, true))
        else None
  }

  function ReadSets(e: Engine, schema: string, name: string, s: Symbols): Option<Statement> {
    match After(s, " SET ")
    case None => None
    case Some(t) =>
      match ReadPairs(e, ", ", t)
      case None => None
      case Some((sets, rest)) => ReadKeys(e, schema, name, sets, rest)
  }

  function ReadUpdate(e: Engine, s: Symbols): Option<Statement> {
    match After(s, "UPDATE ")
    case None => None
    case Some(t) =>
      match ReadName(e, t)
      case None => None
      case Some((schema, u)) =>
        match After(u, ".")
        case None => None
        case Some(v) =>
          match ReadName(e, v)
          case None => None
          case Some((name, w)) => ReadSets(e, schema, name, w)
  }

  // ---- Reading back ----

  /** What follows a list is not the separator. */
  ghost predicate Stops(separator: string, rest: Symbols) { After(rest, separator) == None }

  lemma BlankWithout(e: Engine, text: string, rest: Symbols)
    requires text != "" && text[0] == ' '
    ensures Without(Letters(text) + rest, SqlDump.IdentifierQuote(e))
  {
    assert (Letters(text) + rest)[0] == Letter(' ');
  }

  lemma PairBack(e: Engine, pair: Pair, rest: Symbols)
    ensures var tail := [Value(pair.1)] + rest;
      && ReadName(e, Letters(SqlDump.QuoteIdentifier(e, pair.0) + " = ") + [Value(pair.1)] + rest) == Some((pair.0, Letters(" = ") + tail))
      && After(Letters(" = ") + tail, " = ") == Some(tail)
      && ReadValue(tail) == Some((pair.1, rest))
  {
    hide ReadName, SqlDump.QuoteIdentifier, Letters, After, Without;
    var name, tail := SqlDump.QuoteIdentifier(e, pair.0), [Value(pair.1)] + rest;
    LettersAppend(name, " = ");
    var a, b := Letters(name), Letters(" = ");
    assert a + b + [Value(pair.1)] + rest == a + (b + tail);
    BlankWithout(e, " = ", tail);
    NameBack(e, pair.0, b + tail);
    StartsOwn(" = ", tail);
    ValueBack(pair.1, rest);
  }

  lemma {:induction false} PairsBack(e: Engine, pairs: seq<Pair>, separator: string, rest: Symbols)
    requires pairs != [] && Stops(separator, rest)
    ensures ReadPairs(e, separator, PairSymbols(e, pairs, separator) + rest) == Some((pairs, rest))
  {
    hide ReadName, ReadValue, After, Letters, SqlDump.QuoteIdentifier;
    var first := Letters(SqlDump.QuoteIdentifier(e, pairs[0].0) + " = ") + [Value(pairs[0].1)];
    if |pairs| == 1 {
      PairBack(e, pairs[0], rest);
      assert pairs == [pairs[0]];
    } else {
      var others := PairSymbols(e, pairs[1..], separator);
      PairsBack(e, pairs[1..], separator, rest);
      var more := Letters(separator) + (others + rest);
      assert first + Letters(separator) + others + rest == first + more;
      PairBack(e, pairs[0], more);
      StartsOwn(separator, others + rest);
      assert pairs == [pairs[0]] + pairs[1..];
    }
  }

  lemma EndingStops(e: Engine)
    ensures Stops(" AND ", Letters(Ending(e)))
  {
    if e == SqlLexer.Postgresql {
      assert Letters(" RETURNING *") + [] == Letters(" RETURNING *");
      Differs(" RETURNING *", " AND ", 1, []);
    }
  }

  lemma KeysBack(e: Engine, schema: string, name: string, sets: seq<Pair>, keys: seq<Pair>)
    requires keys != []
    ensures ReadKeys(e, schema, name, sets, Letters(" WHERE ") + (PairSymbols(e, keys, " AND ") + Letters(Ending(e))))
         == Some(Statement(schema, name, sets, keys, e == SqlLexer.Postgresql))
  {
    assert |Letters(" RETURNING *")| == 12 && |Letters("")| == 0;
    EndingStops(e);
    hide PairSymbols, ReadPairs, After, Letters;
    var t := PairSymbols(e, keys, " AND ") + Letters(Ending(e));
    StartsOwn(" WHERE ", t);
    PairsBack(e, keys, " AND ", Letters(Ending(e)));
  }

  lemma SetsBack(e: Engine, schema: string, name: string, sets: seq<Pair>, keys: seq<Pair>)
    requires sets != [] && keys != []
    ensures var where_ := Letters(" WHERE ") + (PairSymbols(e, keys, " AND ") + Letters(Ending(e)));
      ReadSets(e, schema, name, Letters(" SET ") + (PairSymbols(e, sets, ", ") + where_))
      == Some(Statement(schema, name, sets, keys, e == SqlLexer.Postgresql))
  {
    KeysBack(e, schema, name, sets, keys);
    var later := PairSymbols(e, keys, " AND ") + Letters(Ending(e));
    Differs(" WHERE ", ", ", 0, later);
    hide PairSymbols, ReadPairs, ReadKeys, After, Letters, Ending;
    StartsOwn(" SET ", PairSymbols(e, sets, ", ") + (Letters(" WHERE ") + later));
    PairsBack(e, sets, ", ", Letters(" WHERE ") + later);
  }

  lemma HeadSplits(e: Engine, source: Source, rest: Symbols)
    ensures Letters("UPDATE " + TableText(e, source) + " SET ") + rest
         == Letters("UPDATE ") + (Letters(SqlDump.QuoteIdentifier(e, source.schema))
            + (Letters(".") + (Letters(SqlDump.QuoteIdentifier(e, source.name)) + (Letters(" SET ") + rest))))
  {
    var schema, name := SqlDump.QuoteIdentifier(e, source.schema), SqlDump.QuoteIdentifier(e, source.name);
    hide SqlDump.QuoteIdentifier;
    assert "UPDATE " + TableText(e, source) + " SET " == "UPDATE " + schema + "." + name + " SET ";
    LettersAppend("UPDATE " + schema + "." + name, " SET ");
    LettersAppend("UPDATE " + schema + ".", name);
    LettersAppend("UPDATE " + schema, ".");
    LettersAppend("UPDATE ", schema);
    hide Letters;
    var a, b, c, d, f := Letters("UPDATE "), Letters(schema), Letters("."), Letters(name), Letters(" SET ");
    assert a + b + c + d + f + rest == a + (b + (c + (d + (f + rest))));
  }

  lemma Regroup(a: Symbols, b: Symbols, c: Symbols, d: Symbols, f: Symbols)
    ensures a + b + c + d + f == a + (b + (c + (d + f)))
  {}

  lemma TextBack(e: Engine, source: Source, sets: seq<Pair>, keys: seq<Pair>)
    requires sets != [] && keys != []
    ensures ReadUpdate(e, Letters("UPDATE " + TableText(e, source) + " SET ") + PairSymbols(e, sets, ", ")
                          + Letters(" WHERE ") + PairSymbols(e, keys, " AND ") + Letters(Ending(e)))
         == Some(Statement(source.schema, source.name, sets, keys, e == SqlLexer.Postgresql))
  {
    var p, k, end := PairSymbols(e, sets, ", "), PairSymbols(e, keys, " AND "), Letters(Ending(e));
    var rest := p + (Letters(" WHERE ") + (k + end));
    SetsBack(e, source.schema, source.name, sets, keys);
    HeadSplits(e, source, rest);
    BlankWithout(e, " SET ", rest);
    var name := Letters(SqlDump.QuoteIdentifier(e, source.name)) + (Letters(" SET ") + rest);
    StatementReader.DotFirst(e, name);
    hide PairSymbols, ReadSets, ReadName, After, Letters, Ending, TableText, SqlDump.QuoteIdentifier, Without;
    var head := Letters("UPDATE " + TableText(e, source) + " SET ");
    Regroup(head, p, Letters(" WHERE "), k, end);
    StartsOwn("UPDATE ", Letters(SqlDump.QuoteIdentifier(e, source.schema)) + (Letters(".") + name));
    NameBack(e, source.schema, Letters(".") + name);
    StartsOwn(".", name);
    NameBack(e, source.name, Letters(" SET ") + rest);
  }

  /** The parameter carries what is written to the cell: a null, or a text. */
  ghost predicate Carries(param: Param, cell: Option<B.Cell>) {
    match cell
    case Some(Cell(text)) => param == Bound(text)
    case Some(Null) => param == NullParam
    case None => false
  }

  /** The pairs are the requested columns, in order, each with what its own text is written as. */
  ghost predicate SetsAsked(d: B.Description, values: seq<(string, string)>, write: B.Writer, sets: seq<Pair>) {
    |sets| == |values| && forall i | 0 <= i < |values| ::
      && sets[i].0 == values[i].0 && values[i].0 in d.columns
      && Carries(sets[i].1, write(values[i].1, d.columns[values[i].0]))
  }

  /** The pairs are the columns of the identity, in order, each with what the key's text for it is written as. */
  ghost predicate KeysAsked(d: B.Description, names: seq<string>, key: B.Key, write: B.Writer, keys: seq<Pair>) {
    |keys| == |names| && forall i | 0 <= i < |names| ::
      && keys[i].0 == names[i] && names[i] in key && names[i] in d.columns
      && Carries(keys[i].1, write(key[names[i]], d.columns[names[i]]))
  }

  lemma {:induction false} SetsAreAsked(d: B.Description, identity: seq<string>, values: seq<(string, string)>, write: B.Writer)
    requires R.Assignments(d, identity, values, write).Some?
    ensures SetsAsked(d, values, write, Pairs(R.Assignments(d, identity, values, write).value))
  {
    RowRequests.AssignmentsExactly(d, identity, values, write);
  }

  lemma {:induction false} KeysAreAsked(d: B.Description, names: seq<string>, key: B.Key, write: B.Writer)
    requires B.Where(d, names, key, write).Some?
    ensures KeysAsked(d, names, key, write, KeyPairs(names, B.Where(d, names, key, write).value))
  {
    RowRequests.WhereExactly(d, names, key, write);
    hide B.Where;
    forall i | 0 <= i < |names|
      ensures RowRequests.Writable(d, key, write, names[i])
    {
      assert names[i] in names;
    }
  }

  /** What an update asks for. */
  ghost predicate AsAsked(e: Engine, source: Source, d: B.Description, values: seq<(string, string)>, key: B.Key, write: B.Writer,
                          s: Statement) {
    && s.schema == source.schema && s.name == source.name && (s.returning <==> e == SqlLexer.Postgresql)
    && SetsAsked(d, values, write, s.sets)
    && !B.ResolveIdentity(d).ReadOnly? && KeysAsked(d, B.ResolveIdentity(d).columns, key, write, s.keys)
  }

  /**
   * The update built from a request and read by the rules of quoted names sets each requested column
   * to its own value, where every column of the identity has the key's value for it; PostgreSQL
   * returns the rows.
   */
  lemma {:induction false} UpdateReadsBack(e: Engine, source: Source, d: B.Description, values: seq<(string, string)>, key: B.Key,
                                           write: B.Writer)
    requires R.UpdateOf(d, values, key, write).Some?
    ensures var u := R.UpdateOf(d, values, key, write).value;
      var sets, keys := Pairs(u.assignments), KeyPairs(B.ResolveIdentity(d).columns, u.where_);
      var parts, params := UpdateParts(e, source, Columns(sets), B.ResolveIdentity(d).columns), Params(sets) + Params(keys);
      && HoleCount(parts) == |params|
      && ReadUpdate(e, Fill(parts, params)).Some?
      && AsAsked(e, source, d, values, key, write, ReadUpdate(e, Fill(parts, params)).value)
  {
    var u := R.UpdateOf(d, values, key, write).value;
    var identity := B.ResolveIdentity(d).columns;
    var sets, keys := Pairs(u.assignments), KeyPairs(identity, u.where_);
    SetsAreAsked(d, identity, values, write);
    KeysAreAsked(d, identity, key, write);
    assert sets != [] && keys != [];
    UpdateReachesItsColumns(e, source, d, values, key, write);
    TextBack(e, source, sets, keys);
    hide R.UpdateOf, ReadUpdate, UpdateParts, Fill, HoleCount, PairSymbols, Letters, Ending, TableText, SetsAsked, KeysAsked,
      Execute, Render, NoMark, B.ResolveIdentity, Pairs, KeyPairs;
  }
}
