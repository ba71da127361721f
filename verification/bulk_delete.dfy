/** Row identities, and the bulk delete that runs one keyed DELETE a row in a transaction. */
module BulkDelete {
  import opened Text

  /** A stored value; two values are the same when the database's `=` says so. */
  datatype Cell = Null | Cell(value: string)

  /**
   * A stored row; rows with the same cells are told apart by their place. A child row is stored in a
   * table that inherits from the one the statement names, and the statement reaches it as well.
   */
  datatype Row = Row(id: nat, child: bool, cells: map<string, Cell>)

  datatype Column = Column(nullable: bool, dataType: string, isGenerated: bool)

  /**
   * An index. Its predicate is described beside its columns; key parts that are expressions are not
   * among the columns MySQL describes, and a PostgreSQL index that failed to build is described like
   * a valid one.
   */
  datatype Index = Index(columns: seq<string>, primary: bool, unique: bool, condition: Option<string>, expressions: seq<string>,
                         valid: bool)

  datatype Identity = Primary(columns: seq<string>) | Unique(columns: seq<string>) | ReadOnly

  /** A table: its columns by name and its indexes; that others inherit from it is not described. */
  datatype Description = Description(isTable: bool, inherited: bool, columns: map<string, Column>, indexes: seq<Index>)

  predicate NeverNull(columns: map<string, Column>, names: seq<string>) {
    forall name | name in names :: name in columns && !columns[name].nullable
  }

  function FirstPrimary(indexes: seq<Index>): (r: Option<Index>)
    ensures r.Some? ==> r.value in indexes && r.value.primary && r.value.columns != []
  {
    if indexes == [] then None
    else if indexes[0].primary && indexes[0].columns != [] then Some(indexes[0])
    else FirstPrimary(indexes[1..])
  }

  function FirstUnique(columns: map<string, Column>, indexes: seq<Index>): (r: Option<Index>)
    ensures r.Some? ==> r.value in indexes && r.value.unique && r.value.columns != [] && NeverNull(columns, r.value.columns)
  {
    if indexes == [] then None
    else if indexes[0].unique && !indexes[0].primary && indexes[0].columns != [] && NeverNull(columns, indexes[0].columns)
    then Some(indexes[0])
    else FirstUnique(columns, indexes[1..])
  }

  function ResolveIdentity(d: Description): Identity {
    if !d.isTable then ReadOnly
    else
      var primary := FirstPrimary(d.indexes);
      if primary.Some? && NeverNull(d.columns, primary.value.columns) then Primary(primary.value.columns)
      else match FirstUnique(d.columns, d.indexes)
        case Some(index) => Unique(index.columns)
        case None => ReadOnly
  }

  /** What the server computes for the text of an expression on a row. */
  type Evaluate = (string, Row) -> Cell

  const TRUE := Cell("true")

  /** An index is about the table's own rows, a partial one about those that satisfy its predicate. */
  predicate Covers(eval: Evaluate, i: Index, r: Row) {
    i.valid && !r.child && (i.condition.None? || eval(i.condition.value, r) == TRUE)
  }

  /** Some key part of the index differs, or is null. */
  ghost predicate Apart(eval: Evaluate, i: Index, r: Row, s: Row) {
    || (exists name :: name in i.columns
          && (name !in r.cells || name !in s.cells || r.cells[name] != s.cells[name] || r.cells[name] == Null))
    || (exists x :: x in i.expressions && (eval(x, r) != eval(x, s) || eval(x, r) == Null))
  }

  /** What the database enforces for the rows of a table. */
  ghost predicate Enforced(d: Description, eval: Evaluate, rows: set<Row>) {
    && (forall r | r in rows :: r.child ==> d.inherited)
    && (forall r, name | r in rows && name in d.columns :: name in r.cells)
    && (forall r, name | r in rows && name in d.columns && !d.columns[name].nullable :: r.cells[name] != Null)
    && (forall i | i in d.indexes && (i.primary || i.unique) :: forall r, s |
          r in rows && s in rows && r != s && Covers(eval, i, r) && Covers(eval, i, s) :: Apart(eval, i, r, s))
  }

  /** `writeValue`: the parameter for a cell text, nothing when the cell does not fit the column. */
  type Writer = (string, Column) -> Option<Cell>

  type Key = map<string, string>

  datatype Error = Invalid | Conflict | Refused | Internal
  datatype Result<+T> = Ok(value: T) | Err(error: Error)

  /** `identityWhere`: one equality a column, or an error. */
  function Where(d: Description, names: seq<string>, key: Key, write: Writer): Option<map<string, Cell>> {
    if names == [] then Some(map[])
    else if names[0] !in key || names[0] !in d.columns then None
    else match write(key[names[0]], d.columns[names[0]])
      case None => None
      case Some(Null) => None
      case Some(Cell(v)) =>
        match Where(d, names[1..], key, write)
        case None => None
        case Some(rest) => Some(rest[names[0] := Cell(v)])
  }

  function IdentityWhere(d: Description, key: Key, write: Writer): Option<map<string, Cell>> {
    var identity := ResolveIdentity(d);
    if identity.ReadOnly? || identity.columns == [] || |key| != |identity.columns| then None
    else Where(d, identity.columns, key, write)
  }

  /** `column = value` for every column; NULL equals nothing. */
  predicate Matches(where_: map<string, Cell>, r: Row) {
    forall name | name in where_ :: name in r.cells && r.cells[name] != Null && r.cells[name] == where_[name]
  }

  function Selected(rows: set<Row>, where_: map<string, Cell>): set<Row> {
    set r | r in rows && Matches(where_, r)
  }

  /** The table behind the data port. */
  class Store {
    var rows: set<Row>

    constructor (rows: set<Row>)
      ensures this.rows == rows
    {
      this.rows := rows;
    }

    /** `DELETE ... WHERE ... RETURNING *`. */
    method Delete(where_: map<string, Cell>) returns (deleted: set<Row>)
      modifies this
      ensures deleted == Selected(old(rows), where_) && rows == old(rows) - deleted
    {
      deleted := Selected(rows, where_);
      rows := rows - deleted;
    }
  }

  /** The deletes in order, each of exactly one row. */
  function DeleteInOrder(d: Description, rows: set<Row>, keys: seq<Key>, write: Writer): Result<set<Row>> {
    if keys == [] then Ok(rows)
    else match IdentityWhere(d, keys[0], write)
      case None => Err(Invalid)
      case Some(w) =>
        if |Selected(rows, w)| != 1 then Err(Conflict)
        else DeleteInOrder(d, rows - Selected(rows, w), keys[1..], write)
  }

  /** A failed delete restores the table and reports its error. */
  method DeleteRows(store: Store, d: Description, keys: seq<Key>, write: Writer) returns (result: Result<nat>)
    modifies store
    ensures match DeleteInOrder(d, old(store.rows), keys, write)
      case Ok(rows) => result == Ok(|keys|) && store.rows == rows
      case Err(e) => result == Err(e) && store.rows == old(store.rows)
  {
    var saved := store.rows;
    var affectedRows := 0;
    assert keys[0..] == keys;
    for i := 0 to |keys|
      invariant affectedRows == i
      invariant DeleteInOrder(d, store.rows, keys[i..], write) == DeleteInOrder(d, saved, keys, write)
    {
      assert keys[i..][1..] == keys[i + 1..];
      var where_ := IdentityWhere(d, keys[i], write);
      if where_.None? {
        store.rows := saved;
        return Err(Invalid);
      }
      var deleted := store.Delete(where_.value);
      if |deleted| != 1 {
        store.rows := saved;
        return Err(Conflict);
      }
      affectedRows := affectedRows + 1;
    }
    return Ok(affectedRows);
  }

  // ---- Identities ----

  /** The rows a key denotes, none when it is not a complete key. */
  function Denoted(d: Description, rows: set<Row>, key: Key, write: Writer): set<Row> {
    match IdentityWhere(d, key, write)
    case None => {}
    case Some(w) => Selected(rows, w)
  }

  lemma {:induction false} WhereNames(d: Description, names: seq<string>, key: Key, write: Writer)
    requires Where(d, names, key, write).Some?
    ensures forall name :: name in Where(d, names, key, write).value <==> name in names
  {
    if names != [] {
      WhereNames(d, names[1..], key, write);
      assert names == [names[0]] + names[1..];
    }
  }

  /** The resolved identity is an index whose columns are never null. */
  lemma IdentityIsIndex(d: Description)
    ensures var identity := ResolveIdentity(d);
      !identity.ReadOnly? ==>
        && NeverNull(d.columns, identity.columns) && identity.columns != []
        && exists i :: i in d.indexes && (i.primary || i.unique) && i.columns == identity.columns
  {}

  /** The columns describe the index: it is in force on all the table's own rows, by columns alone. */
  predicate Full(i: Index) { i.valid && i.condition.None? && i.expressions == [] }

  /** All rows are the table's own, and some full unique index has all its columns in the identity. */
  ghost predicate Determining(d: Description) {
    var identity := ResolveIdentity(d);
    !identity.ReadOnly? && !d.inherited && exists i ::
      i in d.indexes && (i.primary || i.unique) && Full(i) && forall name | name in i.columns :: name in identity.columns
  }

  /** With such an index a complete key selects at most one row. */
  lemma AtMostOneRow(d: Description, eval: Evaluate, rows: set<Row>, key: Key, write: Writer, r: Row, s: Row)
    requires Enforced(d, eval, rows) && Determining(d) && IdentityWhere(d, key, write).Some?
    requires r in Selected(rows, IdentityWhere(d, key, write).value)
    requires s in Selected(rows, IdentityWhere(d, key, write).value)
    ensures r == s
  {
    hide Where;
    var identity := ResolveIdentity(d);
    WhereNames(d, identity.columns, key, write);
    var i :| i in d.indexes && (i.primary || i.unique) && Full(i) && forall name | name in i.columns :: name in identity.columns;
    var w := IdentityWhere(d, key, write).value;
    assert forall name | name in i.columns ::
      name in r.cells && name in s.cells && r.cells[name] == w[name] == s.cells[name] && r.cells[name] != Null;
    assert !Apart(eval, i, r, s);
  }

  /** The conversion of a text column. */
  function AsText(text: string, column: Column): Option<Cell> { Some(Cell(text)) }

  lemma {:induction false} WhereOfKey(d: Description, names: seq<string>, key: Key, text: string)
    requires NeverNull(d.columns, names) && forall name | name in names :: name in key && key[name] == text
    ensures var w := Where(d, names, key, AsText);
      w.Some? && forall name :: name in w.value <==> name in names
    ensures forall name | name in names :: Where(d, names, key, AsText).value[name] == Cell(text)
  {
    if names != [] {
      WhereOfKey(d, names[1..], key, text);
      assert names == [names[0]] + names[1..];
    }
  }

  lemma LongerThanAll(names: set<string>) returns (n: nat)
    ensures forall name | name in names :: |name| < n
    decreases |names|
  {
    n := 0;
    if names != {} {
      var name :| name in names;
      n := LongerThanAll(names - {name});
      n := if |name| < n then n else |name| + 1;
    }
  }

  /** A complete key with one text everywhere; names of no column make up for repeated ones. */
  lemma {:induction false} SameKey(names: seq<string>, text: string) returns (key: Key)
    ensures |key| == |names| && (forall name | name in names :: name in key) && forall name | name in key :: key[name] == text
  {
    key := map[];
    if names != [] {
      var rest := SameKey(names[1..], text);
      var n := LongerThanAll(rest.Keys);
      var name := if names[0] in rest then seq(n, _ => 'x') else names[0];
      assert name !in rest;
      key := rest[name := text];
      assert key.Keys == rest.Keys + {name};
      assert names == [names[0]] + names[1..];
    }
  }

  /** Two rows with the identity's columns alike and all others different. */
  function Twin(d: Description, id: nat): Row
    requires !ResolveIdentity(d).ReadOnly?
  {
    Row(id, id == 1 && d.inherited, map name | name in d.columns :: if id == 0 || name in ResolveIdentity(d).columns then Cell("v") else Cell("w"))
  }

  /** An evaluation under which no predicate holds and all expressions differ between the twins. */
  function TwinEvaluate(x: string, r: Row): Cell { if r.id == 0 then Cell("0") else Cell("1") }

  lemma TwinsEnforced(d: Description)
    requires !ResolveIdentity(d).ReadOnly? && !Determining(d)
    ensures Enforced(d, TwinEvaluate, {Twin(d, 0), Twin(d, 1)})
  {
    hide ResolveIdentity;
    var r, s := Twin(d, 0), Twin(d, 1);
    forall i | i in d.indexes && (i.primary || i.unique) && i.condition.None? && i.valid && !d.inherited
      ensures Apart(TwinEvaluate, i, r, s) && Apart(TwinEvaluate, i, s, r)
    {
      if i.expressions != [] {
        assert i.expressions[0] in i.expressions;
      } else {
        var name :| name in i.columns && name !in ResolveIdentity(d).columns;
        assert name !in r.cells || r.cells[name] != s.cells[name];
      }
    }
  }

  lemma TwinsSelected(d: Description) returns (key: Key)
    requires !ResolveIdentity(d).ReadOnly?
    ensures Denoted(d, {Twin(d, 0), Twin(d, 1)}, key, AsText) == {Twin(d, 0), Twin(d, 1)}
  {
    var names := ResolveIdentity(d).columns;
    IdentityIsIndex(d);
    key := SameKey(names, "v");
    WhereOfKey(d, names, key, "v");
    assert IdentityWhere(d, key, AsText).Some?;
    hide ResolveIdentity, IdentityWhere, Where;
  }

  /** Whatever the rows and the server, a complete key selects at most one row. */
  ghost predicate Identifying(d: Description) {
    forall eval: Evaluate, rows: set<Row>, key: Key, write: Writer |
      Enforced(d, eval, rows) :: |Denoted(d, rows, key, write)| <= 1
  }

  /**
   * Keys always select at most one row if and only if there is no identity, or no table inherits from
   * this one and a valid unique index without a predicate and without expressions lies within it. The
   * resolution looks at none of that.
   */
  lemma IdentityIsExact(d: Description)
    ensures Identifying(d) <==> ResolveIdentity(d).ReadOnly? || Determining(d)
  {
    if Determining(d) {
      forall eval: Evaluate, rows: set<Row>, key: Key, write: Writer | Enforced(d, eval, rows)
        ensures |Denoted(d, rows, key, write)| <= 1
      {
        DenotedSingle(d, eval, rows, key, write);
      }
    } else if !ResolveIdentity(d).ReadOnly? {
      TwinsEnforced(d);
      var key := TwinsSelected(d);
      hide ResolveIdentity, Enforced, Denoted, Determining;
      var rows := {Twin(d, 0), Twin(d, 1)};
      assert Twin(d, 0).id != Twin(d, 1).id;
      assert |rows| == 2;
      assert |Denoted(d, rows, key, AsText)| == 2;
    }
  }

  /** A partial unique index on `code`, and two rows outside it that share their code. */
  lemma PartialIndexSelectsTwoRows()
    ensures var d := Description(true, false, map["code" := Column(false, "text", false), "active" := Column(false, "bool", false)],
                                 [Index(["code"], false, true, Some("active"), [], true)]);
      var eval: Evaluate := (x: string, r: Row) => if x in r.cells then r.cells[x] else Null;
      var r := Row(0, false, map["code" := Cell("a"), "active" := Cell("false")]);
      && ResolveIdentity(d) == Unique(["code"])
      && Enforced(d, eval, {r, r.(id := 1)})
      && Denoted(d, {r, r.(id := 1)}, map["code" := "a"], AsText) == {r, r.(id := 1)}
  {
    var code, active := Column(false, "text", false), Column(false, "bool", false);
    var i := Index(["code"], false, true, Some("active"), [], true);
    var d := Description(true, false, map["code" := code, "active" := active], [i]);
    assert [i][1..] == [] && ["code"][1..] == [];
    assert FirstPrimary([i]) == None;
    assert FirstUnique(d.columns, [i]) == Some(i);
    assert Where(d, [], map["code" := "a"], AsText) == Some(map[]);
  }

  /** The primary key of a parent table does not cover the rows of a child: one key, a row in each. */
  lemma InheritanceParentSelectsTwoRows()
    ensures var d := Description(true, true, map["id" := Column(false, "integer", false)], [Index(["id"], true, true, None, [], true)]);
      var r, s := Row(0, false, map["id" := Cell("1")]), Row(1, true, map["id" := Cell("1")]);
      && ResolveIdentity(d) == Primary(["id"])
      && Enforced(d, TwinEvaluate, {r, s})
      && Denoted(d, {r, s}, map["id" := "1"], AsText) == {r, s}
  {
    var i := Index(["id"], true, true, None, [], true);
    var d := Description(true, true, map["id" := Column(false, "integer", false)], [i]);
    OneKeyColumn(d, "id", "1");
  }

  /** A unique index whose build failed over duplicates is resolved all the same. */
  lemma InvalidIndexSelectsTwoRows()
    ensures var d := Description(true, false, map["code" := Column(false, "text", false)], [Index(["code"], false, true, None, [], false)]);
      var r := Row(0, false, map["code" := Cell("a")]);
      && ResolveIdentity(d) == Unique(["code"])
      && Enforced(d, TwinEvaluate, {r, r.(id := 1)})
      && Denoted(d, {r, r.(id := 1)}, map["code" := "a"], AsText) == {r, r.(id := 1)}
  {
    var i := Index(["code"], false, true, None, [], false);
    var d := Description(true, false, map["code" := Column(false, "text", false)], [i]);
    assert [i][1..] == [] && FirstPrimary([i]) == None && FirstUnique(d.columns, [i]) == Some(i);
    OneKeyColumn(d, "code", "a");
  }

  lemma OneKeyColumn(d: Description, name: string, text: string)
    requires name in d.columns
    ensures Where(d, [name], map[name := text], AsText) == Some(map[name := Cell(text)])
  {
    assert [name][1..] == [] && Where(d, [], map[name := text], AsText) == Some(map[]);
  }

  // ---- Bulk deletes ----

  /** Every key denotes one row, and no two keys the same. */
  ghost predicate DistinctRows(d: Description, rows: set<Row>, keys: seq<Key>, write: Writer) {
    && (forall i | 0 <= i < |keys| :: |Denoted(d, rows, keys[i], write)| == 1)
    && (forall i, j | 0 <= i < j < |keys| :: Denoted(d, rows, keys[i], write) != Denoted(d, rows, keys[j], write))
  }

  ghost function AllDenoted(d: Description, rows: set<Row>, keys: seq<Key>, write: Writer): set<Row> {
    set r | r in rows && exists i :: 0 <= i < |keys| && r in Denoted(d, rows, keys[i], write)
  }

  /** Keys over the same columns denote the same rows or none in common. */
  lemma DenotedApart(d: Description, rows: set<Row>, one: Key, two: Key, write: Writer)
    ensures var a, b := Denoted(d, rows, one, write), Denoted(d, rows, two, write);
      a == b || a * b == {}
  {
    var a, b := Denoted(d, rows, one, write), Denoted(d, rows, two, write);
    if r :| r in a && r in b {
      var names := ResolveIdentity(d).columns;
      WhereNames(d, names, one, write);
      WhereNames(d, names, two, write);
      var v, w := IdentityWhere(d, one, write).value, IdentityWhere(d, two, write).value;
      hide Where, ResolveIdentity;
      assert forall name | name in v :: v[name] == r.cells[name] == w[name];
      assert v == w;
    }
  }

  lemma DenotedAfter(d: Description, rows: set<Row>, gone: set<Row>, key: Key, write: Writer)
    ensures Denoted(d, rows - gone, key, write) == Denoted(d, rows, key, write) - gone
  {
    hide IdentityWhere, Matches;
  }

  lemma DenotedMinus(d: Description, rows: set<Row>, first: Key, key: Key, write: Writer)
    ensures var gone, mine := Denoted(d, rows, first, write), Denoted(d, rows, key, write);
      Denoted(d, rows - gone, key, write) == if mine == gone then {} else mine
  {
    hide Denoted;
    var gone, mine := Denoted(d, rows, first, write), Denoted(d, rows, key, write);
    DenotedAfter(d, rows, gone, key, write);
    DenotedApart(d, rows, first, key, write);
    if mine != gone {
      assert forall r | r in mine :: r !in gone by {
        assert forall r | r in mine && r in gone :: r in gone * mine;
      }
      assert mine - gone == mine;
    }
  }

  /** Taking the first key's row away: the others still denote distinct rows if they did before. */
  lemma DistinctAfter(d: Description, rows: set<Row>, keys: seq<Key>, write: Writer)
    requires keys != [] && |Denoted(d, rows, keys[0], write)| == 1
    ensures var first := Denoted(d, rows, keys[0], write);
      DistinctRows(d, rows, keys, write) <==> DistinctRows(d, rows - first, keys[1..], write)
  {
    hide Denoted;
    var first, rest := Denoted(d, rows, keys[0], write), keys[1..];
    assert forall i | 0 <= i < |rest| :: rest[i] == keys[i + 1];
    forall i | 0 <= i < |rest|
      ensures Denoted(d, rows - first, rest[i], write)
           == if Denoted(d, rows, keys[i + 1], write) == first then {} else Denoted(d, rows, keys[i + 1], write)
    {
      DenotedMinus(d, rows, keys[0], keys[i + 1], write);
    }
    if DistinctRows(d, rows - first, rest, write) {
      forall i | 0 <= i < |keys|
        ensures |Denoted(d, rows, keys[i], write)| == 1 && (i > 0 ==> Denoted(d, rows, keys[i], write) != first)
      {
        if i > 0 {
          assert |Denoted(d, rows - first, rest[i - 1], write)| == 1;
        }
      }
      forall i, j | 0 <= i < j < |keys|
        ensures Denoted(d, rows, keys[i], write) != Denoted(d, rows, keys[j], write)
      {
        if i > 0 {
          assert Denoted(d, rows - first, rest[i - 1], write) != Denoted(d, rows - first, rest[j - 1], write);
        }
      }
    }
    if DistinctRows(d, rows, keys, write) {
      assert forall i | 0 <= i < |rest| :: Denoted(d, rows - first, rest[i], write) == Denoted(d, rows, keys[i + 1], write);
    }
  }

  lemma AllDenotedCons(d: Description, rows: set<Row>, keys: seq<Key>, write: Writer)
    requires keys != []
    ensures var first := Denoted(d, rows, keys[0], write);
      rows - AllDenoted(d, rows, keys, write) == (rows - first) - AllDenoted(d, rows - first, keys[1..], write)
  {
    hide Denoted;
    var first, rest := Denoted(d, rows, keys[0], write), keys[1..];
    forall r | r in rows
      ensures r in AllDenoted(d, rows, keys, write) <==> r in first || r in AllDenoted(d, rows - first, rest, write)
    {
      forall i | 0 <= i < |rest|
        ensures r in Denoted(d, rows - first, rest[i], write) <==> r in Denoted(d, rows, keys[i + 1], write) && r !in first
      {
        DenotedAfter(d, rows, first, rest[i], write);
      }
      if i :| 0 <= i < |keys| && r in Denoted(d, rows, keys[i], write) {
        assert i == 0 || keys[i] == rest[i - 1];
      }
      if i :| 0 <= i < |rest| && r in Denoted(d, rows - first, rest[i], write) {
        assert r in Denoted(d, rows, keys[i + 1], write);
      }
    }
  }

  /**
   * The bulk delete succeeds if and only if every key denotes exactly one row and no two the same one,
   * and then the table is the old one without exactly those rows. Nothing is asked of the indexes.
   */
  lemma {:induction false} BulkDeleteIsExact(d: Description, rows: set<Row>, keys: seq<Key>, write: Writer)
    ensures var result := DeleteInOrder(d, rows, keys, write);
      && (result.Ok? <==> DistinctRows(d, rows, keys, write))
      && (result.Ok? ==> result.value == rows - AllDenoted(d, rows, keys, write) && |result.value| == |rows| - |keys|)
    decreases |keys|
  {
    hide IdentityWhere, Selected, DistinctRows, AllDenoted;
    if keys == [] {
      NoKeys(d, rows, keys, write);
    } else {
      var first := Denoted(d, rows, keys[0], write);
      if |first| != 1 {
        FirstMissing(d, rows, keys, write);
      } else {
        BulkDeleteIsExact(d, rows - first, keys[1..], write);
        DistinctAfter(d, rows, keys, write);
        AllDenotedCons(d, rows, keys, write);
        RemoveOne(d, rows, keys[0], write);
      }
    }
  }

  /** With a full unique index within the identity, keys that denote rows denote single ones. */
  lemma DenotedSingle(d: Description, eval: Evaluate, rows: set<Row>, key: Key, write: Writer)
    requires Enforced(d, eval, rows) && Determining(d)
    ensures |Denoted(d, rows, key, write)| == if Denoted(d, rows, key, write) == {} then 0 else 1
  {
    hide IdentityWhere, Enforced, Matches, Determining;
    var rs := Denoted(d, rows, key, write);
    if r :| r in rs {
      forall s | s in rs
        ensures r == s
      {
        AtMostOneRow(d, eval, rows, key, write, r, s);
      }
      assert rs == {r};
    }
  }

  lemma NoKeys(d: Description, rows: set<Row>, keys: seq<Key>, write: Writer)
    requires keys == []
    ensures DistinctRows(d, rows, keys, write) && rows - AllDenoted(d, rows, keys, write) == rows
  {}

  lemma FirstMissing(d: Description, rows: set<Row>, keys: seq<Key>, write: Writer)
    requires keys != [] && |Denoted(d, rows, keys[0], write)| != 1
    ensures !DistinctRows(d, rows, keys, write)
  {}

  lemma RemoveOne(d: Description, rows: set<Row>, key: Key, write: Writer)
    requires |Denoted(d, rows, key, write)| == 1
    ensures |rows - Denoted(d, rows, key, write)| == |rows| - 1
  {
    hide IdentityWhere, Matches;
    var gone := Denoted(d, rows, key, write);
    assert gone <= rows && |rows - gone| + |gone| == |rows| by {
      assert rows == (rows - gone) + gone;
    }
  }
}
