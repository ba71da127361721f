/** The update of one row by its identity, with the two engines' ways of counting what it did. */
module RowUpdate {
  import opened Text
  import opened BulkDelete
  import opened Sets
  import SqlLexer

  type Engine = SqlLexer.Engine

  datatype Assignment = Assignment(column: string, value: Cell)

  /** `mutationValues`: identity and generated columns cannot be changed. */
  function Assignments(d: Description, identity: seq<string>, values: seq<(string, string)>, write: Writer): Option<seq<Assignment>> {
    if values == [] then Some([])
    else
      var (name, cell) := values[0];
      if name !in d.columns || name in identity || d.columns[name].isGenerated then None
      else match write(cell, d.columns[name])
        case None => None
        case Some(value) =>
          match Assignments(d, identity, values[1..], write)
          case None => None
          case Some(rest) => Some([Assignment(name, value)] + rest)
  }

  datatype Update = Update(assignments: seq<Assignment>, where_: map<string, Cell>)

  /** The update a request stands for, nothing when it is invalid. */
  function UpdateOf(d: Description, values: seq<(string, string)>, key: Key, write: Writer): Option<Update> {
    var identity := ResolveIdentity(d);
    match Assignments(d, if identity.ReadOnly? then [] else identity.columns, values, write)
    case None => None
    case Some(assignments) =>
      if assignments == [] then None
      else match IdentityWhere(d, key, write)
        case None => None
        case Some(w) => Some(Update(assignments, w))
  }

  /** A row after `SET`. */
  function Assigned(assignments: seq<Assignment>, r: Row): Row {
    if assignments == [] then r
    else Assigned(assignments[1..], r.(cells := r.cells[assignments[0].column := assignments[0].value]))
  }

  function Rewritten(u: Update, rows: set<Row>): set<Row> { set r | r in rows :: Assigned(u.assignments, r) }

  /** The table after the statement. */
  function After(u: Update, rows: set<Row>): set<Row> {
    var hit := Selected(rows, u.where_);
    rows - hit + Rewritten(u, hit)
  }

  /** `ROW_COUNT()`: the rows matched, or only those that differ afterwards. */
  function RowCount(u: Update, rows: set<Row>, foundRows: bool): nat {
    var hit := Selected(rows, u.where_);
    if foundRows then |hit| else |set r | r in hit && Assigned(u.assignments, r) != r|
  }

  /** Whether the server lets the statement leave the table like this. */
  type Constraints = set<Row> -> bool

  /** How either engine judges an executed update. */
  function Judge(e: Engine, u: Update, rows: set<Row>, foundRows: bool): Option<Error> {
    match e
    case Postgresql =>
      var returned := |Selected(rows, u.where_)|;
      if returned == 0 then Some(Conflict) else if returned > 1 then Some(Internal) else None
    case Mysql =>
      var count := RowCount(u, rows, foundRows);
      if count == 0 then (if Selected(After(u, rows), u.where_) == {} then Some(Conflict) else None)
      else if count != 1 then Some(Internal) else None
  }

  /** The outcome of an update request; an error leaves the table as it was. */
  function UpdateTable(e: Engine, d: Description, rows: set<Row>, values: seq<(string, string)>, key: Key, write: Writer,
                       allows: Constraints, foundRows: bool): Result<set<Row>> {
    match UpdateOf(d, values, key, write)
    case None => Err(Invalid)
    case Some(u) =>
      if !allows(After(u, rows)) then Err(Refused)
      else match Judge(e, u, rows, foundRows)
        case Some(error) => Err(error)
        case None => Ok(After(u, rows))
  }

  method UpdateRow(e: Engine, store: Store, d: Description, values: seq<(string, string)>, key: Key, write: Writer,
                   allows: Constraints, foundRows: bool) returns (result: Result<nat>)
    modifies store
    ensures match UpdateTable(e, d, old(store.rows), values, key, write, allows, foundRows)
      case Ok(rows) => result == Ok(1) && store.rows == rows
      case Err(error) => result == Err(error) && store.rows == old(store.rows)
  {
    var update := UpdateOf(d, values, key, write);
    if update.None? {
      return Err(Invalid);
    }
    var u, saved := update.value, store.rows;
    if !allows(After(u, saved)) {
      return Err(Refused);
    }
    store.rows := After(u, saved);
    match e {
      case Postgresql =>
        var returned := |Selected(saved, u.where_)|;
        if returned == 0 {
          store.rows := saved;
          return Err(Conflict);
        }
        if returned > 1 {
          store.rows := saved;
          return Err(Internal);
        }
      case Mysql =>
        var affectedRows := RowCount(u, saved, foundRows);
        if affectedRows == 0 {
          if |Selected(store.rows, u.where_)| == 0 {
            store.rows := saved;
            return Err(Conflict);
          }
          affectedRows := 1;
        }
        if affectedRows != 1 {
          store.rows := saved;
          return Err(Internal);
        }
    }
    return Ok(1);
  }

  // ---- Exactness ----

  lemma {:induction false} AssignmentColumns(d: Description, identity: seq<string>, values: seq<(string, string)>, write: Writer)
    requires Assignments(d, identity, values, write).Some?
    ensures forall a | a in Assignments(d, identity, values, write).value :: a.column !in identity
  {
    if values != [] {
      AssignmentColumns(d, identity, values[1..], write);
    }
  }

  lemma {:induction false} AssignedKeeps(assignments: seq<Assignment>, r: Row, name: string)
    requires forall a | a in assignments :: a.column != name
    ensures name in Assigned(assignments, r).cells <==> name in r.cells
    ensures name in r.cells ==> Assigned(assignments, r).cells[name] == r.cells[name]
  {
    if assignments != [] {
      AssignedKeeps(assignments[1..], r.(cells := r.cells[assignments[0].column := assignments[0].value]), name);
    }
  }

  lemma {:induction false} AssignedPlace(assignments: seq<Assignment>, r: Row)
    ensures Assigned(assignments, r).id == r.id
  {
    if assignments != [] {
      AssignedPlace(assignments[1..], r.(cells := r.cells[assignments[0].column := assignments[0].value]));
    }
  }

  /** An update leaves its own row's identity alone. */
  lemma IdentityKept(d: Description, values: seq<(string, string)>, key: Key, write: Writer, r: Row)
    requires UpdateOf(d, values, key, write).Some?
    ensures var u := UpdateOf(d, values, key, write).value;
      && (forall name | name in u.where_ :: name in Assigned(u.assignments, r).cells <==> name in r.cells)
      && (forall name | name in u.where_ && name in r.cells :: Assigned(u.assignments, r).cells[name] == r.cells[name])
      && (Matches(u.where_, Assigned(u.assignments, r)) <==> Matches(u.where_, r))
  {
    var u := UpdateOf(d, values, key, write).value;
    var identity := ResolveIdentity(d).columns;
    AssignmentColumns(d, identity, values, write);
    WhereNames(d, identity, key, write);
    hide Where, Assignments, ResolveIdentity, Assigned;
    forall name | name in u.where_
      ensures name in Assigned(u.assignments, r).cells <==> name in r.cells
      ensures name in r.cells ==> Assigned(u.assignments, r).cells[name] == r.cells[name]
    {
      AssignedKeeps(u.assignments, r, name);
    }
  }

  /** The rows an update request denotes after it are the denoted ones rewritten. */
  lemma SelectedAfter(d: Description, rows: set<Row>, values: seq<(string, string)>, key: Key, write: Writer)
    requires UpdateOf(d, values, key, write).Some?
    ensures var u := UpdateOf(d, values, key, write).value;
      Selected(After(u, rows), u.where_) == Rewritten(u, Selected(rows, u.where_))
  {
    var u := UpdateOf(d, values, key, write).value;
    hide UpdateOf, Matches, Assigned;
    forall r | r in rows
      ensures Matches(u.where_, Assigned(u.assignments, r)) <==> Matches(u.where_, r)
    {
      IdentityKept(d, values, key, write, r);
    }
  }

  /** How many rows an engine counts: all that matched, or those the assignments changed. */
  function Counted(e: Engine, u: Update, rows: set<Row>, foundRows: bool): nat {
    if e == SqlLexer.Postgresql then |Selected(rows, u.where_)| else RowCount(u, rows, foundRows)
  }

  /** Either engine asks first whether the key denotes a row, then whether it counted a second one. */
  lemma JudgeIsCount(e: Engine, d: Description, rows: set<Row>, values: seq<(string, string)>, key: Key, write: Writer,
                     foundRows: bool)
    requires UpdateOf(d, values, key, write).Some?
    ensures var u := UpdateOf(d, values, key, write).value;
      Judge(e, u, rows, foundRows)
      == if Denoted(d, rows, key, write) == {} then Some(Conflict)
         else if Counted(e, u, rows, foundRows) > 1 then Some(Internal) else None
  {
    var u := UpdateOf(d, values, key, write).value;
    var hit := Selected(rows, u.where_);
    assert hit == Denoted(d, rows, key, write);
    SelectedAfter(d, rows, values, key, write);
    hide UpdateOf, Denoted, Selected, After, Assigned;
    if hit == {} {
      assert (set r | r in hit && Assigned(u.assignments, r) != r) == {};
    } else {
      var r :| r in hit;
      assert Assigned(u.assignments, r) in Rewritten(u, hit);
    }
  }

  /** The rows the key denotes are rewritten, and it denotes what they became; all others stay. */
  ghost predicate Rewrites(d: Description, rows: set<Row>, next: set<Row>, u: Update, key: Key, write: Writer) {
    var hit := Denoted(d, rows, key, write);
    && next == rows - hit + Rewritten(u, hit)
    && Denoted(d, next, key, write) == Rewritten(u, hit)
  }

  /**
   * An update is refused as invalid or by the server, or it is in conflict if and only if its key
   * denotes no row, internally wrong if and only if the engine counts more than one row, and done
   * otherwise. Done, it rewrites what the key denotes and nothing else. Nothing is asked of the
   * indexes, so MySQL, counting changed rows, can accept a key of several rows.
   */
  lemma UpdateIsExact(e: Engine, d: Description, rows: set<Row>, values: seq<(string, string)>, key: Key, write: Writer,
                      allows: Constraints, foundRows: bool)
    ensures var result := UpdateTable(e, d, rows, values, key, write, allows, foundRows);
      var update := UpdateOf(d, values, key, write);
      && (result == Err(Invalid) <==> update.None?)
      && (result == Err(Refused) <==> update.Some? && !allows(After(update.value, rows)))
      && (update.Some? && allows(After(update.value, rows)) ==>
            && (result == Err(Conflict) <==> Denoted(d, rows, key, write) == {})
            && (result == Err(Internal) <==> Counted(e, update.value, rows, foundRows) > 1)
            && (result.Ok? <==> Denoted(d, rows, key, write) != {} && Counted(e, update.value, rows, foundRows) <= 1))
      && (result.Ok? ==> Rewrites(d, rows, result.value, update.value, key, write))
  {
    if UpdateOf(d, values, key, write).Some? {
      var u := UpdateOf(d, values, key, write).value;
      JudgeIsCount(e, d, rows, values, key, write, foundRows);
      SelectedAfter(d, rows, values, key, write);
      assert Selected(rows, u.where_) == Denoted(d, rows, key, write);
      assert Denoted(d, After(u, rows), key, write) == Selected(After(u, rows), u.where_);
      hide UpdateOf, Denoted, Selected, Judge, Assigned;
      CountedBound(e, u, rows, foundRows);
    }
  }

  lemma CountedBound(e: Engine, u: Update, rows: set<Row>, foundRows: bool)
    ensures Counted(e, u, rows, foundRows) <= |Selected(rows, u.where_)|
  {
    hide Selected, Assigned;
    var hit := Selected(rows, u.where_);
    SubsetSize((set r | r in hit && Assigned(u.assignments, r) != r), hit);
  }

  ghost predicate RewritesOne(d: Description, rows: set<Row>, next: set<Row>, u: Update, key: Key, write: Writer) {
    exists r :: Denoted(d, rows, key, write) == {r} && next == rows - {r} + {Assigned(u.assignments, r)}
  }

  /** Without inheriting tables and with a full unique index within the identity the update is about one row. */
  lemma IndexedUpdateIsSingle(e: Engine, d: Description, eval: Evaluate, rows: set<Row>, values: seq<(string, string)>, key: Key,
                              write: Writer, allows: Constraints, foundRows: bool)
    requires Enforced(d, eval, rows) && Determining(d)
    ensures var result := UpdateTable(e, d, rows, values, key, write, allows, foundRows);
      && result != Err(Internal)
      && (result.Ok? ==> RewritesOne(d, rows, result.value, UpdateOf(d, values, key, write).value, key, write))
  {
    UpdateIsExact(e, d, rows, values, key, write, allows, foundRows);
    if UpdateOf(d, values, key, write).Some? {
      var u := UpdateOf(d, values, key, write).value;
      DenotedSingle(d, eval, rows, key, write);
      CountedBound(e, u, rows, foundRows);
      assert Selected(rows, u.where_) == Denoted(d, rows, key, write);
      hide UpdateOf, Denoted, Selected, UpdateTable, Enforced, Determining, Assigned, Counted;
      if Denoted(d, rows, key, write) != {} {
        var r :| r in Denoted(d, rows, key, write);
        OnlyOne(Denoted(d, rows, key, write), r);
        assert Rewritten(u, {r}) == {Assigned(u.assignments, r)};
      }
    }
  }

  lemma OnlyOne(rs: set<Row>, r: Row)
    requires |rs| == 1 && r in rs
    ensures rs == {r}
  {
    assert |rs - {r}| == 0;
  }

  // ---- When the internal error can be reached ----

  /** A column that an update may set. */
  ghost predicate Settable(d: Description, column: string) {
    column in d.columns && !d.columns[column].isGenerated && !ResolveIdentity(d).ReadOnly?
    && column !in ResolveIdentity(d).columns
  }

  /** Some table that the server's indexes allow, and some update of it, end in the internal error. */
  ghost predicate InternalReachable(e: Engine, d: Description, foundRows: bool) {
    exists eval: Evaluate, rows: set<Row>, values: seq<(string, string)>, key: Key, write: Writer ::
      EndsInternal(e, d, eval, rows, values, key, write, foundRows)
  }

  ghost predicate EndsInternal(e: Engine, d: Description, eval: Evaluate, rows: set<Row>, values: seq<(string, string)>, key: Key,
                               write: Writer, foundRows: bool) {
    Enforced(d, eval, rows) && UpdateTable(e, d, rows, values, key, write, _ => true, foundRows) == Err(Internal)
  }

  lemma TwinUpdate(d: Description, column: string) returns (key: Key)
    requires Settable(d, column)
    ensures var update := UpdateOf(d, [(column, "new")], key, AsText);
      && update.Some? && update.value.assignments == [Assignment(column, Cell("new"))]
      && Denoted(d, {Twin(d, 0), Twin(d, 1)}, key, AsText) == {Twin(d, 0), Twin(d, 1)}
  {
    key := TwinsSelected(d);
    var values := [(column, "new")];
    var names := ResolveIdentity(d).columns;
    assert values[1..] == [];
    assert Assignments(d, names, [], AsText) == Some([]);
    assert [Assignment(column, Cell("new"))] + [] == [Assignment(column, Cell("new"))];
    assert Assignments(d, names, values, AsText) == Some([Assignment(column, Cell("new"))]);
    assert IdentityWhere(d, key, AsText).Some?;
  }

  lemma TwinsCounted(e: Engine, d: Description, column: string, foundRows: bool, u: Update)
    requires Settable(d, column) && u.assignments == [Assignment(column, Cell("new"))]
    requires Selected({Twin(d, 0), Twin(d, 1)}, u.where_) == {Twin(d, 0), Twin(d, 1)}
    ensures Counted(e, u, {Twin(d, 0), Twin(d, 1)}, foundRows) == 2
  {
    hide Selected, ResolveIdentity, Assigned;
    var r, s := Twin(d, 0), Twin(d, 1);
    var hit := Selected({r, s}, u.where_);
    assert r.id != s.id && |{r, s}| == 2;
    forall x | x in hit
      ensures Assigned(u.assignments, x) != x
    {
      AssignedOne(u.assignments, x);
      assert x.cells[column] != Cell("new");
    }
    assert (set x | x in hit && Assigned(u.assignments, x) != x) == hit;
  }

  lemma AssignedOne(assignments: seq<Assignment>, r: Row)
    requires |assignments| == 1
    ensures Assigned(assignments, r) == r.(cells := r.cells[assignments[0].column := assignments[0].value])
  {
    assert assignments[1..] == [];
  }

  /**
   * The internal error for a key of more than one row is reachable if and only if some column can be
   * set, and a table inherits from this one or no valid unique index without predicate and expressions
   * lies within the resolved identity.
   */
  lemma InternalErrorExactly(e: Engine, d: Description, foundRows: bool)
    ensures InternalReachable(e, d, foundRows) <==> !Determining(d) && exists column :: Settable(d, column)
  {
    if InternalReachable(e, d, foundRows) {
      var eval: Evaluate, rows: set<Row>, values: seq<(string, string)>, key: Key, write: Writer :|
        EndsInternal(e, d, eval, rows, values, key, write, foundRows);
      InternalNeedsAColumn(e, d, rows, values, key, write, foundRows);
      if Determining(d) {
        IndexedUpdateIsSingle(e, d, eval, rows, values, key, write, _ => true, foundRows);
      }
    }
    if column :| !Determining(d) && Settable(d, column) {
      TwinsReach(e, d, column, foundRows);
    }
  }

  lemma InternalNeedsAColumn(e: Engine, d: Description, rows: set<Row>, values: seq<(string, string)>, key: Key, write: Writer,
                             foundRows: bool)
    requires UpdateTable(e, d, rows, values, key, write, _ => true, foundRows) == Err(Internal)
    ensures exists column :: Settable(d, column)
  {
    assert UpdateOf(d, values, key, write).Some?;
    assert values != [] && Settable(d, values[0].0);
  }

  lemma TwinsReach(e: Engine, d: Description, column: string, foundRows: bool)
    requires !Determining(d) && Settable(d, column)
    ensures InternalReachable(e, d, foundRows)
  {
    var key := TwinUpdate(d, column);
    var rows, values := {Twin(d, 0), Twin(d, 1)}, [(column, "new")];
    var write: Writer := AsText;
    TwinsEnforced(d);
    var u := UpdateOf(d, values, key, write).value;
    assert Selected(rows, u.where_) == Denoted(d, rows, key, write);
    TwinsCounted(e, d, column, foundRows, u);
    UpdateIsExact(e, d, rows, values, key, write, _ => true, foundRows);
    hide UpdateOf, Enforced, UpdateTable, Denoted, Selected, Counted;
    assert EndsInternal(e, d, TwinEvaluate, rows, values, key, write, foundRows);
  }
}
