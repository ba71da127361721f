/** The text of an update: `SET` parameters come first and the key's parameters after them. */
module UpdateText {
  import opened Text
  import opened DataQuery
  import opened QueryBinding
  import opened QueryText
  import B = BulkDelete
  import RowUpdate
  import SqlDump
  import SqlLexer

  type Engine = SqlLexer.Engine

  /** A column with the value that belongs to it. */
  type Pair = (string, Param)

  function ParamOf(c: B.Cell): Param {
    match c
    case Null => NullParam
    case Cell(v) => Bound(v)
  }

  function Pairs(assignments: seq<RowUpdate.Assignment>): seq<Pair> {
    seq(|assignments|, i requires 0 <= i < |assignments| => (assignments[i].column, ParamOf(assignments[i].value)))
  }

  /** The key columns in the identity's own order. */
  function KeyPairs(names: seq<string>, where_: map<string, B.Cell>): seq<Pair> {
    seq(|names|, i requires 0 <= i < |names| =>
      (names[i], if names[i] in where_ then ParamOf(where_[names[i]]) else NullParam))
  }

  function Columns(pairs: seq<Pair>): seq<string> { seq(|pairs|, i requires 0 <= i < |pairs| => pairs[i].0) }

  function Params(pairs: seq<Pair>): seq<Param> { seq(|pairs|, i requires 0 <= i < |pairs| => pairs[i].1) }

  function EqualParts(e: Engine, column: string): seq<Part> { [Fixed(SqlDump.QuoteIdentifier(e, column) + " = "), Hole] }

  /** `column = ?` for each column, joined. */
  function JoinedParts(e: Engine, columns: seq<string>, separator: string): seq<Part> {
    if columns == [] then []
    else if |columns| == 1 then EqualParts(e, columns[0])
    else EqualParts(e, columns[0]) + [Fixed(separator)] + JoinedParts(e, columns[1..], separator)
  }

  function Ending(e: Engine): string { if e == SqlLexer.Mysql then "" else " RETURNING *" }

  function UpdateParts(e: Engine, source: Source, columns: seq<string>, keys: seq<string>): seq<Part> {
    [Fixed("UPDATE " + TableText(e, source) + " SET ")] + JoinedParts(e, columns, ", ")
    + [Fixed(" WHERE ")] + JoinedParts(e, keys, " AND ") + [Fixed(Ending(e))]
  }

  /** `column = value` for each pair, as the server receives it. */
  function PairSymbols(e: Engine, pairs: seq<Pair>, separator: string): seq<Symbol> {
    if pairs == [] then []
    else
      var first := Letters(SqlDump.QuoteIdentifier(e, pairs[0].0) + " = ") + [Value(pairs[0].1)];
      if |pairs| == 1 then first else first + Letters(separator) + PairSymbols(e, pairs[1..], separator)
  }

  lemma PairsTail(pairs: seq<Pair>)
    requires pairs != []
    ensures Columns(pairs)[1..] == Columns(pairs[1..]) && Params(pairs)[1..] == Params(pairs[1..])
    ensures Params(pairs) == [pairs[0].1] + Params(pairs[1..])
  {}

  lemma {:induction false} JoinedFills(e: Engine, pairs: seq<Pair>, separator: string)
    ensures HoleCount(JoinedParts(e, Columns(pairs), separator)) == |pairs|
    ensures Fill(JoinedParts(e, Columns(pairs), separator), Params(pairs)) == PairSymbols(e, pairs, separator)
  {
    if pairs == [] {
      FillNothing();
    } else {
      hide Fill, HoleCount, Letters, SqlDump.QuoteIdentifier;
      PairsTail(pairs);
      var head := SqlDump.QuoteIdentifier(e, pairs[0].0) + " = ";
      var first := EqualParts(e, pairs[0].0);
      FillPair(head, pairs[0].1);
      assert Columns(pairs)[0] == pairs[0].0;
      if |pairs| == 1 {
        assert Params(pairs) == [pairs[0].1];
      } else {
        JoinedFills(e, pairs[1..], separator);
        FillFixed(separator);
        FillAppend(first, [pairs[0].1], [Fixed(separator)], []);
        assert [pairs[0].1] + [] == [pairs[0].1];
        FillAppend(first + [Fixed(separator)], [pairs[0].1], JoinedParts(e, Columns(pairs[1..]), separator), Params(pairs[1..]));
      }
    }
  }

  lemma PlainEqual(e: Engine, column: string)
    ensures Plain(EqualParts(e, column)) <==> '?' !in column
  {
    MarkInQuoted(e, column);
    hide SqlDump.QuoteIdentifier;
    var text := SqlDump.QuoteIdentifier(e, column) + " = ";
    PlainOne(text);
    PlainHole();
    PlainAppend([Fixed(text)], [Hole]);
    assert EqualParts(e, column) == [Fixed(text)] + [Hole];
  }

  lemma {:induction false} PlainJoined(e: Engine, columns: seq<string>, separator: string)
    requires '?' !in separator
    ensures Plain(JoinedParts(e, columns, separator)) <==> NoMark(columns)
  {
    if columns == [] {
      PlainHole();
    } else {
      hide Plain, EqualParts;
      PlainEqual(e, columns[0]);
      assert columns == [columns[0]] + columns[1..];
      if |columns| > 1 {
        PlainJoined(e, columns[1..], separator);
        PlainOne(separator);
        PlainAppend(EqualParts(e, columns[0]), [Fixed(separator)]);
        PlainAppend(EqualParts(e, columns[0]) + [Fixed(separator)], JoinedParts(e, columns[1..], separator));
      }
    }
  }

  lemma UpdateFills(e: Engine, source: Source, values: seq<Pair>, keys: seq<Pair>)
    ensures var parts := UpdateParts(e, source, Columns(values), Columns(keys));
      && HoleCount(parts) == |Params(values) + Params(keys)|
      && Fill(parts, Params(values) + Params(keys))
         == Letters("UPDATE " + TableText(e, source) + " SET ") + PairSymbols(e, values, ", ")
            + Letters(" WHERE ") + PairSymbols(e, keys, " AND ") + Letters(Ending(e))
  {
    hide Fill, HoleCount, Letters, TableText, JoinedParts, PairSymbols, Columns, Ending;
    var p, q := Params(values), Params(keys);
    var none: seq<Param> := [];
    var head := "UPDATE " + TableText(e, source) + " SET ";
    var set_, where_ := JoinedParts(e, Columns(values), ", "), JoinedParts(e, Columns(keys), " AND ");
    JoinedFills(e, values, ", ");
    JoinedFills(e, keys, " AND ");
    FillFixed(head);
    FillFixed(" WHERE ");
    FillFixed(Ending(e));
    FillAppend([Fixed(head)], none, set_, p);
    assert none + p == p && p + none == p && p + q + none == p + q;
    FillAppend([Fixed(head)] + set_, p, [Fixed(" WHERE ")], none);
    FillAppend([Fixed(head)] + set_ + [Fixed(" WHERE ")], p, where_, q);
    FillAppend([Fixed(head)] + set_ + [Fixed(" WHERE ")] + where_, p + q, [Fixed(Ending(e))], none);
  }

  lemma PlainUpdate(e: Engine, source: Source, columns: seq<string>, keys: seq<string>)
    ensures Plain(UpdateParts(e, source, columns, keys))
            <==> '?' !in source.schema && '?' !in source.name && NoMark(columns) && NoMark(keys)
  {
    MarkInTable(e, source);
    PlainJoined(e, columns, ", ");
    PlainJoined(e, keys, " AND ");
    PlainOne(" WHERE ");
    PlainOne(Ending(e));
    hide Plain, NoMark, TableText, JoinedParts;
    var head := "UPDATE " + TableText(e, source) + " SET ";
    PlainOne(head);
    var set_, where_ := JoinedParts(e, columns, ", "), JoinedParts(e, keys, " AND ");
    PlainAppend([Fixed(head)], set_);
    PlainAppend([Fixed(head)] + set_, [Fixed(" WHERE ")]);
    PlainAppend([Fixed(head)] + set_ + [Fixed(" WHERE ")], where_);
    PlainAppend([Fixed(head)] + set_ + [Fixed(" WHERE ")] + where_, [Fixed(Ending(e))]);
  }

  /**
   * The parameters of an update, changed values first and key values after them, belong to their own
   * columns; a driver that cuts the text at every `?` refuses it exactly when a name has a `?`.
   */
  lemma UpdateReachesItsColumns(e: Engine, source: Source, d: B.Description, values: seq<(string, string)>, key: B.Key, write: B.Writer)
    requires RowUpdate.UpdateOf(d, values, key, write).Some?
    ensures var u := RowUpdate.UpdateOf(d, values, key, write).value;
      var identity := B.ResolveIdentity(d).columns;
      var (set_, where_) := (Pairs(u.assignments), KeyPairs(identity, u.where_));
      && (forall name | name in identity :: name in u.where_ && u.where_[name] != B.Null)
      && var parts, params := UpdateParts(e, source, Columns(set_), identity), Params(set_) + Params(where_);
      && HoleCount(parts) == |params|
      && Fill(parts, params)
         == Letters("UPDATE " + TableText(e, source) + " SET ") + PairSymbols(e, set_, ", ")
            + Letters(" WHERE ") + PairSymbols(e, where_, " AND ") + Letters(Ending(e))
      && Execute(Render(parts), params)
         == if '?' !in source.schema && '?' !in source.name && NoMark(Columns(set_)) && NoMark(identity)
            then Some(Fill(parts, params)) else None
  {
    var u := RowUpdate.UpdateOf(d, values, key, write).value;
    var identity := B.ResolveIdentity(d).columns;
    var set_, where_ := Pairs(u.assignments), KeyPairs(identity, u.where_);
    WhereValues(d, identity, key, write);
    hide RowUpdate.UpdateOf, B.ResolveIdentity, B.IdentityWhere, Plain, Fill, Render, HoleCount, Execute, UpdateParts, Params,
      PairSymbols, Letters, NoMark, Pairs;
    assert Columns(where_) == identity;
    UpdateFills(e, source, set_, where_);
    PlainUpdate(e, source, Columns(set_), identity);
    DriverDelivers(UpdateParts(e, source, Columns(set_), identity), Params(set_) + Params(where_));
  }

  lemma {:induction false} WhereValues(d: B.Description, names: seq<string>, key: B.Key, write: B.Writer)
    ensures var w := B.Where(d, names, key, write);
      w.Some? ==> forall name | name in names :: name in w.value && w.value[name] != B.Null
  {
    if names != [] && B.Where(d, names, key, write).Some? {
      WhereValues(d, names[1..], key, write);
      assert forall name | name in names :: name == names[0] || name in names[1..];
    }
  }
}
