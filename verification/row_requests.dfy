/**
 * What requests to delete or update rows say and what becomes of the table, told by the columns of
 * the key, the values and the rows alone.
 */
module RowRequests {
  import opened Text
  import opened BulkDelete
  import opened RowUpdate
  import opened Sets
  import SqlLexer

  // ---- Which identity a table has ----

  predicate IsPrimary(i: Index) { i.primary && i.columns != [] }

  /** Some column of the index is unknown or can be null. */
  ghost predicate HasNullable(columns: map<string, Column>, i: Index) {
    exists name :: name in i.columns && (name !in columns || columns[name].nullable)
  }

  ghost predicate IsIdentifying(columns: map<string, Column>, i: Index) {
    i.unique && !i.primary && i.columns != [] && !HasNullable(columns, i)
  }

  lemma {:induction false} NullableExactly(columns: map<string, Column>, i: Index)
    ensures HasNullable(columns, i) <==> !NeverNull(columns, i.columns)
  {}

  /** The first primary key with columns. */
  ghost predicate PrimaryAt(indexes: seq<Index>, i: nat) {
    i < |indexes| && IsPrimary(indexes[i]) && forall j | 0 <= j < i :: !IsPrimary(indexes[j])
  }

  /** The first other unique index whose columns are never null. */
  ghost predicate UniqueAt(columns: map<string, Column>, indexes: seq<Index>, i: nat) {
    i < |indexes| && IsIdentifying(columns, indexes[i]) && forall j | 0 <= j < i :: !IsIdentifying(columns, indexes[j])
  }

  lemma {:induction false} FirstPrimaryAt(indexes: seq<Index>)
    ensures match FirstPrimary(indexes)
      case None => forall i | i in indexes :: !IsPrimary(i)
      case Some(index) => exists i: nat :: PrimaryAt(indexes, i) && indexes[i] == index
  {
    if indexes != [] {
      if IsPrimary(indexes[0]) {
        assert PrimaryAt(indexes, 0);
      } else {
        FirstPrimaryAt(indexes[1..]);
        if FirstPrimary(indexes).Some? {
          var i: nat :| PrimaryAt(indexes[1..], i) && indexes[1..][i] == FirstPrimary(indexes).value;
          assert forall j | 1 <= j < |indexes| :: indexes[1..][j - 1] == indexes[j];
          assert PrimaryAt(indexes, i + 1);
        }
      }
    }
  }

  lemma {:induction false} FirstUniqueAt(columns: map<string, Column>, indexes: seq<Index>)
    ensures match FirstUnique(columns, indexes)
      case None => forall i | i in indexes :: !IsIdentifying(columns, i)
      case Some(index) => exists i: nat :: UniqueAt(columns, indexes, i) && indexes[i] == index
  {
    hide NeverNull, HasNullable;
    if indexes != [] {
      NullableExactly(columns, indexes[0]);
      if IsIdentifying(columns, indexes[0]) {
        assert UniqueAt(columns, indexes, 0);
      } else {
        FirstUniqueAt(columns, indexes[1..]);
        if FirstUnique(columns, indexes).Some? {
          var i: nat :| UniqueAt(columns, indexes[1..], i) && indexes[1..][i] == FirstUnique(columns, indexes).value;
          assert forall j | 1 <= j < |indexes| :: indexes[1..][j - 1] == indexes[j];
          assert UniqueAt(columns, indexes, i + 1);
        }
      }
    }
  }

  lemma {:induction false} PrimaryUnique(indexes: seq<Index>)
    ensures forall i: nat, j: nat | PrimaryAt(indexes, i) && PrimaryAt(indexes, j) :: i == j
  {}

  /**
   * The identity is the first primary key if its columns are never null, otherwise the first other
   * unique index whose columns are never null, and there is none for a view or without either.
   */
  lemma {:induction false} IdentityExactly(d: Description)
    ensures match ResolveIdentity(d)
      case Primary(columns) =>
        d.isTable && exists i: nat :: PrimaryAt(d.indexes, i) && d.indexes[i].columns == columns && !HasNullable(d.columns, d.indexes[i])
      case Unique(columns) =>
        && d.isTable && (forall i: nat | PrimaryAt(d.indexes, i) :: HasNullable(d.columns, d.indexes[i]))
        && exists i: nat :: UniqueAt(d.columns, d.indexes, i) && d.indexes[i].columns == columns
      case ReadOnly =>
        !d.isTable || ((forall i: nat | PrimaryAt(d.indexes, i) :: HasNullable(d.columns, d.indexes[i]))
                       && forall i | i in d.indexes :: !IsIdentifying(d.columns, i))
  {
    FirstPrimaryAt(d.indexes);
    FirstUniqueAt(d.columns, d.indexes);
    PrimaryUnique(d.indexes);
    var primary := FirstPrimary(d.indexes);
    if primary.None? {
      assert forall i: nat | PrimaryAt(d.indexes, i) :: false by { NoPrimary(d.indexes); }
    } else {
      NullableExactly(d.columns, primary.value);
    }
    hide NeverNull, HasNullable, FirstPrimary, FirstUnique, PrimaryAt, UniqueAt, IsIdentifying, IsPrimary;
  }

  lemma {:induction false} NoPrimary(indexes: seq<Index>)
    requires forall i | i in indexes :: !IsPrimary(i)
    ensures forall i: nat :: !PrimaryAt(indexes, i)
  {}

  // ---- What a key names ----

  /** The text for `name` can be written to its column, and is not null. */
  ghost predicate Writable(d: Description, key: Key, write: Writer, name: string) {
    name in key && name in d.columns && write(key[name], d.columns[name]).Some? && write(key[name], d.columns[name]).value != Null
  }

  /** The key has exactly the columns of the identity, each with a text that can be written. */
  ghost predicate CompleteKey(d: Description, key: Key, write: Writer) {
    var identity := ResolveIdentity(d);
    && !identity.ReadOnly? && identity.columns != [] && |key| == |identity.columns|
    && forall name | name in identity.columns :: Writable(d, key, write, name)
  }

  /** In every column of the identity the row has the value the key has for this column. */
  ghost predicate IsNamed(d: Description, key: Key, write: Writer, r: Row) {
    && CompleteKey(d, key, write)
    && forall name | name in ResolveIdentity(d).columns && Writable(d, key, write, name) ::
         name in r.cells && r.cells[name] == write(key[name], d.columns[name]).value
  }

  lemma {:induction false} WhereExactly(d: Description, names: seq<string>, key: Key, write: Writer)
    ensures Where(d, names, key, write).Some? <==> forall name | name in names :: Writable(d, key, write, name)
    ensures Where(d, names, key, write).Some? ==>
      && (forall name :: name in Where(d, names, key, write).value <==> name in names)
      && (forall name | name in names && Writable(d, key, write, name) ::
            Where(d, names, key, write).value[name] == write(key[name], d.columns[name]).value)
  {
    if names != [] {
      WhereExactly(d, names[1..], key, write);
      assert forall name :: name in names <==> name == names[0] || name in names[1..];
    }
  }

  lemma {:induction false} KeyDenotes(d: Description, rows: set<Row>, key: Key, write: Writer)
    ensures IdentityWhere(d, key, write).Some? <==> CompleteKey(d, key, write)
    ensures forall r :: r in Denoted(d, rows, key, write) <==> r in rows && IsNamed(d, key, write, r)
  {
    var identity := ResolveIdentity(d);
    if !identity.ReadOnly? {
      WhereExactly(d, identity.columns, key, write);
      hide Where, ResolveIdentity;
    }
  }

  // ---- Bulk deletes ----

  /** The key names a row, and only one. */
  ghost predicate NamesOne(d: Description, rows: set<Row>, key: Key, write: Writer) {
    exists r :: r in rows && IsNamed(d, key, write, r) && forall s | s in rows && IsNamed(d, key, write, s) :: s == r
  }

  /** Every key names one row, and no row is named by two of the keys. */
  ghost predicate EachNamesItsOwn(d: Description, rows: set<Row>, keys: seq<Key>, write: Writer) {
    && (forall i | 0 <= i < |keys| :: NamesOne(d, rows, keys[i], write))
    && (forall i, j, r | 0 <= i < j < |keys| && r in rows :: !(IsNamed(d, keys[i], write, r) && IsNamed(d, keys[j], write, r)))
  }

  lemma {:induction false} NamedIsOne(d: Description, rows: set<Row>, key: Key, write: Writer, hit: set<Row>)
    requires NamesOne(d, rows, key, write) && forall r :: r in hit <==> r in rows && IsNamed(d, key, write, r)
    ensures |hit| == 1
  {
    hide IsNamed;
    var r :| r in rows && IsNamed(d, key, write, r) && forall s | s in rows && IsNamed(d, key, write, s) :: s == r;
    assert hit == {r};
  }

  lemma {:induction false} OneIsNamed(d: Description, rows: set<Row>, key: Key, write: Writer, hit: set<Row>, r: Row)
    requires hit == {r} && forall r :: r in hit <==> r in rows && IsNamed(d, key, write, r)
    ensures NamesOne(d, rows, key, write)
  {
    hide IsNamed;
    assert r in hit;
  }

  lemma {:induction false} OneDenoted(d: Description, rows: set<Row>, key: Key, write: Writer)
    ensures |Denoted(d, rows, key, write)| == 1 <==> NamesOne(d, rows, key, write)
  {
    KeyDenotes(d, rows, key, write);
    var hit := Denoted(d, rows, key, write);
    hide Denoted, IsNamed, NamesOne;
    if |hit| == 1 {
      var r :| r in hit;
      OnlyOne(hit, r);
      OneIsNamed(d, rows, key, write, hit, r);
    }
    if NamesOne(d, rows, key, write) {
      NamedIsOne(d, rows, key, write, hit);
    }
  }

  lemma {:induction false} OwnRows(d: Description, rows: set<Row>, keys: seq<Key>, write: Writer)
    ensures DistinctRows(d, rows, keys, write) <==> EachNamesItsOwn(d, rows, keys, write)
  {
    forall i | 0 <= i < |keys|
      ensures |Denoted(d, rows, keys[i], write)| == 1 <==> NamesOne(d, rows, keys[i], write)
      ensures forall r :: r in Denoted(d, rows, keys[i], write) <==> r in rows && IsNamed(d, keys[i], write, r)
    {
      OneDenoted(d, rows, keys[i], write);
      KeyDenotes(d, rows, keys[i], write);
    }
    forall i, j | 0 <= i < j < |keys|
      ensures forall r | r in Denoted(d, rows, keys[i], write) && r in Denoted(d, rows, keys[j], write) ::
        Denoted(d, rows, keys[i], write) == Denoted(d, rows, keys[j], write)
    {
      var a, b := Denoted(d, rows, keys[i], write), Denoted(d, rows, keys[j], write);
      DenotedApart(d, rows, keys[i], keys[j], write);
      assert forall r | r in a && r in b :: r in a * b;
    }
    hide Denoted, IsNamed, NamesOne;
    if EachNamesItsOwn(d, rows, keys, write) {
      forall i, j | 0 <= i < j < |keys|
        ensures Denoted(d, rows, keys[i], write) != Denoted(d, rows, keys[j], write)
      {
        assert |Denoted(d, rows, keys[i], write)| == 1;
        var r :| r in Denoted(d, rows, keys[i], write);
      }
    }
  }

  /**
   * A bulk delete succeeds if and only if every key names one row, and no row is named twice; then
   * exactly the rows that no key names are left. It is invalid if and only if the first key that
   * fails is not a complete key, and in conflict if that key is complete.
   */
  lemma {:induction false} DeletesAsNamed(d: Description, rows: set<Row>, keys: seq<Key>, write: Writer)
    ensures var result := DeleteInOrder(d, rows, keys, write);
      && (result.Ok? <==> EachNamesItsOwn(d, rows, keys, write))
      && (result.Ok? ==> forall r :: r in result.value <==> r in rows && forall i | 0 <= i < |keys| :: !IsNamed(d, keys[i], write, r))
      && (result.Err? ==> exists i: nat ::
            i < |keys| && FailsFirst(d, rows, keys, write, i)
            && result.error == if CompleteKey(d, keys[i], write) then Conflict else Invalid)
  {
    BulkDeleteIsExact(d, rows, keys, write);
    OwnRows(d, rows, keys, write);
    if DeleteInOrder(d, rows, keys, write).Ok? {
      forall i | 0 <= i < |keys|
        ensures forall r :: r in Denoted(d, rows, keys[i], write) <==> r in rows && IsNamed(d, keys[i], write, r)
      {
        KeyDenotes(d, rows, keys[i], write);
      }
      hide DeleteInOrder, Denoted, IsNamed, EachNamesItsOwn;
    } else {
      var i := FirstFailure(d, rows, keys, write);
      hide DeleteInOrder, CompleteKey, EachNamesItsOwn;
    }
  }

  /** All keys before the `i`-th name their own rows, and with it they do not. */
  ghost predicate FailsFirst(d: Description, rows: set<Row>, keys: seq<Key>, write: Writer, i: nat)
    requires i < |keys|
  {
    EachNamesItsOwn(d, rows, keys[..i], write) && !EachNamesItsOwn(d, rows, keys[..i + 1], write)
  }

  lemma {:induction false} FirstFailure(d: Description, rows: set<Row>, keys: seq<Key>, write: Writer) returns (i: nat)
    requires DeleteInOrder(d, rows, keys, write).Err?
    ensures i < |keys| && FailsFirst(d, rows, keys, write, i)
    ensures DeleteInOrder(d, rows, keys, write).error == if CompleteKey(d, keys[i], write) then Conflict else Invalid
    decreases |keys|
  {
    hide IdentityWhere, CompleteKey, EachNamesItsOwn, Selected;
    KeyDenotes(d, rows, keys[0], write);
    var w := IdentityWhere(d, keys[0], write);
    if w.None? || |Selected(rows, w.value)| != 1 {
      i := 0;
      assert keys[..0] == [] && keys[..1] == [keys[0]];
      OwnRows(d, rows, [], write);
      OwnRows(d, rows, [keys[0]], write);
      NoKeys(d, rows, [], write);
      FirstMissing(d, rows, [keys[0]], write);
    } else {
      var left := rows - Denoted(d, rows, keys[0], write);
      var j := FirstFailure(d, left, keys[1..], write);
      i := j + 1;
      Prefixes(d, rows, keys, write, j);
      Prefixes(d, rows, keys, write, j + 1);
    }
  }

  lemma {:induction false} Prefixes(d: Description, rows: set<Row>, keys: seq<Key>, write: Writer, j: nat)
    requires keys != [] && j < |keys| && |Denoted(d, rows, keys[0], write)| == 1
    ensures EachNamesItsOwn(d, rows, keys[..j + 1], write)
            <==> EachNamesItsOwn(d, rows - Denoted(d, rows, keys[0], write), keys[1..][..j], write)
  {
    hide Denoted, EachNamesItsOwn, DistinctRows;
    assert keys[..j + 1][1..] == keys[1..][..j];
    OwnRows(d, rows, keys[..j + 1], write);
    OwnRows(d, rows - Denoted(d, rows, keys[0], write), keys[1..][..j], write);
    DistinctAfter(d, rows, keys[..j + 1], write);
  }

  // ---- Updates ----

  /** There is something to set, in columns that may be set, and every text can be written to its column. */
  ghost predicate ValidValues(d: Description, values: seq<(string, string)>, write: Writer) {
    values != [] && !ResolveIdentity(d).ReadOnly? && forall v | v in values ::
      v.0 in d.columns && v.0 !in ResolveIdentity(d).columns && !d.columns[v.0].isGenerated && write(v.1, d.columns[v.0]).Some?
  }

  predicate IsSet(values: seq<(string, string)>, name: string) { exists v | v in values :: v.0 == name }

  ghost predicate LastAt(values: seq<(string, string)>, name: string, i: nat) {
    i < |values| && values[i].0 == name && forall j | i < j < |values| :: values[j].0 != name
  }

  /** `s` is `r` with every named column set to its own, last, value; all other cells are as they were. */
  ghost predicate IsChanged(d: Description, values: seq<(string, string)>, write: Writer, r: Row, s: Row) {
    && s.id == r.id && s.child == r.child
    && (forall name :: name in s.cells <==> name in r.cells || IsSet(values, name))
    && (forall name | name in r.cells && name in s.cells && !IsSet(values, name) :: s.cells[name] == r.cells[name])
    && (forall name, i: nat | LastAt(values, name, i) ::
          && name in s.cells && name in d.columns && write(values[i].1, d.columns[name]).Some?
          && s.cells[name] == write(values[i].1, d.columns[name]).value)
  }

  lemma {:induction false} AssignmentsExactly(d: Description, identity: seq<string>, values: seq<(string, string)>, write: Writer)
    ensures Assignments(d, identity, values, write).Some? <==> forall v | v in values ::
      v.0 in d.columns && v.0 !in identity && !d.columns[v.0].isGenerated && write(v.1, d.columns[v.0]).Some?
    ensures Assignments(d, identity, values, write).Some? ==>
      && |Assignments(d, identity, values, write).value| == |values|
      && forall i | 0 <= i < |values| ::
           && values[i].0 in d.columns && write(values[i].1, d.columns[values[i].0]).Some?
           && Assignments(d, identity, values, write).value[i]
              == Assignment(values[i].0, write(values[i].1, d.columns[values[i].0]).value)
  {
    if values != [] {
      AssignmentsExactly(d, identity, values[1..], write);
      assert forall v :: v in values <==> v == values[0] || v in values[1..];
      assert forall i | 1 <= i < |values| :: values[1..][i - 1] == values[i];
    }
  }

  lemma {:induction false} AssignedExactly(assignments: seq<Assignment>, r: Row)
    ensures var s := Assigned(assignments, r);
      && s.id == r.id && s.child == r.child
      && (forall name :: name in s.cells <==> name in r.cells || exists a :: a in assignments && a.column == name)
      && (forall name | name in r.cells && (forall a | a in assignments :: a.column != name) :: s.cells[name] == r.cells[name])
      && (forall i | 0 <= i < |assignments| && (forall j | i < j < |assignments| :: assignments[j].column != assignments[i].column) ::
            s.cells[assignments[i].column] == assignments[i].value)
  {
    if assignments != [] {
      var a, rest := assignments[0], assignments[1..];
      var next := r.(cells := r.cells[a.column := a.value]);
      AssignedExactly(rest, next);
      assert forall x :: x in assignments <==> x == a || x in rest;
      assert forall i | 1 <= i < |assignments| :: rest[i - 1] == assignments[i];
      var s := Assigned(assignments, r);
      forall i | 0 <= i < |assignments| && (forall j | i < j < |assignments| :: assignments[j].column != assignments[i].column)
        ensures s.cells[assignments[i].column] == assignments[i].value
      {
        if i > 0 {
          assert forall j | i - 1 < j < |rest| :: rest[j].column != rest[i - 1].column;
        } else {
          assert forall x | x in rest :: x.column != a.column;
        }
      }
    }
  }

  /** The table after an update: the rows the key names changed, and all others. */
  ghost predicate IsUpdated(d: Description, rows: set<Row>, values: seq<(string, string)>, key: Key, write: Writer, next: set<Row>) {
    && (forall r | r in rows && !IsNamed(d, key, write, r) :: r in next)
    && (forall r | r in rows && IsNamed(d, key, write, r) :: exists s :: s in next && IsChanged(d, values, write, r, s))
    && (forall s | s in next :: exists r :: r in rows && if IsNamed(d, key, write, r) then IsChanged(d, values, write, r, s) else s == r)
  }

  lemma {:induction false} ChangedRow(d: Description, values: seq<(string, string)>, key: Key, write: Writer, r: Row)
    requires UpdateOf(d, values, key, write).Some?
    ensures IsChanged(d, values, write, r, Assigned(UpdateOf(d, values, key, write).value.assignments, r))
  {
    var identity := ResolveIdentity(d);
    var columns := if identity.ReadOnly? then [] else identity.columns;
    var assignments := UpdateOf(d, values, key, write).value.assignments;
    assert assignments == Assignments(d, columns, values, write).value;
    hide ResolveIdentity, UpdateOf, IsChanged;
    AssignmentsExactly(d, columns, values, write);
    AssignedIsChanged(d, values, write, assignments, r);
  }

  /** The assignments set what the values say, one each. */
  ghost predicate AssignsValues(d: Description, values: seq<(string, string)>, write: Writer, assignments: seq<Assignment>) {
    |assignments| == |values| && forall i | 0 <= i < |values| ::
      && values[i].0 in d.columns && write(values[i].1, d.columns[values[i].0]).Some?
      && assignments[i] == Assignment(values[i].0, write(values[i].1, d.columns[values[i].0]).value)
  }

  lemma {:induction false} NamesAssigned(d: Description, values: seq<(string, string)>, write: Writer, assignments: seq<Assignment>,
                                         name: string)
    requires AssignsValues(d, values, write, assignments)
    ensures IsSet(values, name) <==> exists a :: a in assignments && a.column == name
  {
    if IsSet(values, name) {
      var i := LastSet(values, name);
      assert assignments[i] in assignments;
    }
    if a :| a in assignments && a.column == name {
      var i :| 0 <= i < |assignments| && assignments[i] == a;
      assert values[i] in values;
    }
  }

  lemma {:induction false} AssignedIsChanged(d: Description, values: seq<(string, string)>, write: Writer, assignments: seq<Assignment>,
                                             r: Row)
    requires AssignsValues(d, values, write, assignments)
    ensures IsChanged(d, values, write, r, Assigned(assignments, r))
  {
    AssignedExactly(assignments, r);
    forall name
      ensures IsSet(values, name) <==> exists a :: a in assignments && a.column == name
    {
      NamesAssigned(d, values, write, assignments, name);
    }
    hide Assigned, IsSet;
    var s := Assigned(assignments, r);
    forall name, i: nat | LastAt(values, name, i)
      ensures name in s.cells && s.cells[name] == assignments[i].value
    {
      assert assignments[i] in assignments;
      assert forall j | i < j < |assignments| :: assignments[j].column != assignments[i].column;
    }
  }

  /**
   * An update is invalid if and only if its values or its key are not; it is in conflict if and only
   * if it is valid and let through and no row is named; and when it is done, or refused by the server,
   * exactly the named rows are, or would be, changed, each column to its own value.
   */
  lemma {:induction false} UpdatesAsAsked(e: Engine, d: Description, rows: set<Row>, values: seq<(string, string)>, key: Key,
                                          write: Writer, allows: Constraints, foundRows: bool)
    ensures var result := UpdateTable(e, d, rows, values, key, write, allows, foundRows);
      && (result == Err(Invalid) <==> !(ValidValues(d, values, write) && CompleteKey(d, key, write)))
      && (result == Err(Refused) ==> exists next :: IsUpdated(d, rows, values, key, write, next) && !allows(next))
      && (result == Err(Conflict) <==> ValidValues(d, values, write) && CompleteKey(d, key, write) && allows(rows)
                                       && forall r | r in rows :: !IsNamed(d, key, write, r))
      && (result.Ok? ==> (exists r :: r in rows && IsNamed(d, key, write, r)) && IsUpdated(d, rows, values, key, write, result.value))
  {
    UpdateIsExact(e, d, rows, values, key, write, allows, foundRows);
    ValidUpdate(d, values, key, write);
    KeyDenotes(d, rows, key, write);
    hide UpdateOf, Denoted, IsNamed, CompleteKey, ValidValues, IsUpdated;
    var result := UpdateTable(e, d, rows, values, key, write, allows, foundRows);
    if UpdateOf(d, values, key, write).Some? {
      var u := UpdateOf(d, values, key, write).value;
      AfterRewrites(d, rows, values, key, write);
      RewrittenIsUpdated(d, rows, values, key, write, After(u, rows));
      if forall r | r in rows :: !IsNamed(d, key, write, r) {
        assert After(u, rows) == rows by {
          assert Denoted(d, rows, key, write) == {};
          assert Rewritten(u, {}) == {};
        }
      }
      hide After, Rewrites;
    }
  }

  lemma {:induction false} AfterRewrites(d: Description, rows: set<Row>, values: seq<(string, string)>, key: Key, write: Writer)
    requires UpdateOf(d, values, key, write).Some?
    ensures var u := UpdateOf(d, values, key, write).value;
      && After(u, rows) == rows - Denoted(d, rows, key, write) + Rewritten(u, Denoted(d, rows, key, write))
      && Rewrites(d, rows, After(u, rows), u, key, write)
  {
    SelectedAfter(d, rows, values, key, write);
    var u := UpdateOf(d, values, key, write).value;
    assert Selected(rows, u.where_) == Denoted(d, rows, key, write);
    assert Denoted(d, After(u, rows), key, write) == Selected(After(u, rows), u.where_);
    hide UpdateOf, Selected, Denoted, Assigned;
  }

  lemma {:induction false} ValidUpdate(d: Description, values: seq<(string, string)>, key: Key, write: Writer)
    ensures UpdateOf(d, values, key, write).Some? <==> ValidValues(d, values, write) && CompleteKey(d, key, write)
  {
    var identity := ResolveIdentity(d);
    AssignmentsExactly(d, if identity.ReadOnly? then [] else identity.columns, values, write);
    KeyDenotes(d, {}, key, write);
    hide Assignments, ResolveIdentity, IdentityWhere, Writable;
  }

  lemma {:induction false} RewrittenIsUpdated(d: Description, rows: set<Row>, values: seq<(string, string)>, key: Key, write: Writer,
                                              next: set<Row>)
    requires UpdateOf(d, values, key, write).Some?
    requires Rewrites(d, rows, next, UpdateOf(d, values, key, write).value, key, write)
    ensures IsUpdated(d, rows, values, key, write, next)
  {
    var u := UpdateOf(d, values, key, write).value;
    KeyDenotes(d, rows, key, write);
    forall r | r in rows
      ensures IsChanged(d, values, write, r, Assigned(u.assignments, r))
    {
      ChangedRow(d, values, key, write, r);
    }
    hide UpdateOf, Denoted, IsNamed, IsChanged, Assigned;
    forall r | r in rows && IsNamed(d, key, write, r)
      ensures exists s :: s in next && IsChanged(d, values, write, r, s)
    {
      assert Assigned(u.assignments, r) in next;
    }
    forall s | s in next
      ensures exists r :: r in rows && if IsNamed(d, key, write, r) then IsChanged(d, values, write, r, s) else s == r
    {
      if s in Rewritten(u, Denoted(d, rows, key, write)) {
        var r :| r in Denoted(d, rows, key, write) && s == Assigned(u.assignments, r);
        assert IsNamed(d, key, write, r);
      } else {
        assert s in rows && !IsNamed(d, key, write, s);
      }
    }
  }

  // ---- Which rows an engine counts ----

  lemma {:induction false} LastSet(values: seq<(string, string)>, name: string) returns (i: nat)
    requires IsSet(values, name)
    ensures LastAt(values, name, i)
    decreases |values|
  {
    var n := |values| - 1;
    if values[n].0 == name {
      i := n;
    } else {
      var v :| v in values && v.0 == name;
      var k :| 0 <= k < |values| && values[k] == v;
      assert values[..n][k] == v;
      i := LastSet(values[..n], name);
    }
  }

  lemma {:induction false} SameCell(d: Description, values: seq<(string, string)>, write: Writer, r: Row, s: Row, t: Row, name: string)
    requires IsChanged(d, values, write, r, s) && IsChanged(d, values, write, r, t)
    ensures name in s.cells <==> name in t.cells
    ensures name in s.cells ==> s.cells[name] == t.cells[name]
  {
    hide LastAt, IsSet;
    if IsSet(values, name) {
      var i := LastSet(values, name);
    }
  }

  /** The values determine what becomes of a row. */
  lemma {:induction false} ChangedOne(d: Description, values: seq<(string, string)>, write: Writer, r: Row, s: Row, t: Row)
    requires IsChanged(d, values, write, r, s) && IsChanged(d, values, write, r, t)
    ensures s == t
  {
    assert s.id == t.id && s.child == t.child;
    forall name
      ensures name in s.cells <==> name in t.cells
      ensures name in s.cells ==> s.cells[name] == t.cells[name]
    {
      SameCell(d, values, write, r, s, t, name);
    }
    hide IsChanged;
    assert s.cells == t.cells;
  }

  /** Two rows the key names; for an engine that counts changed rows, two that the values change. */
  ghost predicate CountsTwo(e: Engine, d: Description, rows: set<Row>, values: seq<(string, string)>, key: Key, write: Writer,
                            foundRows: bool) {
    exists r, s :: Counts(e, d, rows, values, key, write, foundRows, r) && Counts(e, d, rows, values, key, write, foundRows, s) && r != s
  }

  ghost predicate Counts(e: Engine, d: Description, rows: set<Row>, values: seq<(string, string)>, key: Key, write: Writer,
                         foundRows: bool, r: Row) {
    && r in rows && IsNamed(d, key, write, r)
    && (e == SqlLexer.Mysql && !foundRows ==> !IsChanged(d, values, write, r, r))
  }

  ghost function CountedRows(e: Engine, u: Update, rows: set<Row>, foundRows: bool): set<Row> {
    var hit := Selected(rows, u.where_);
    if e == SqlLexer.Postgresql || foundRows then hit else set r | r in hit && Assigned(u.assignments, r) != r
  }

  lemma {:induction false} CountedAre(e: Engine, d: Description, rows: set<Row>, values: seq<(string, string)>, key: Key, write: Writer,
                                      foundRows: bool)
    requires UpdateOf(d, values, key, write).Some?
    ensures var u := UpdateOf(d, values, key, write).value;
      && Counted(e, u, rows, foundRows) == |CountedRows(e, u, rows, foundRows)|
      && forall r :: r in CountedRows(e, u, rows, foundRows) <==> Counts(e, d, rows, values, key, write, foundRows, r)
  {
    var u := UpdateOf(d, values, key, write).value;
    KeyDenotes(d, rows, key, write);
    assert Selected(rows, u.where_) == Denoted(d, rows, key, write);
    forall r
      ensures Assigned(u.assignments, r) == r <==> IsChanged(d, values, write, r, r)
    {
      ChangedRow(d, values, key, write, r);
      if IsChanged(d, values, write, r, r) {
        ChangedOne(d, values, write, r, r, Assigned(u.assignments, r));
      }
    }
    hide UpdateOf, Denoted, IsNamed, IsChanged, Assigned, Matches;
  }

  lemma {:induction false} MoreThanOne(rs: set<Row>)
    ensures |rs| > 1 ==> exists r, s :: r in rs && s in rs && r != s
    ensures forall r, s | r in rs && s in rs && r != s :: |rs| > 1
  {
    if |rs| > 1 {
      var r :| r in rs;
      assert |rs - {r}| == |rs| - 1;
      var s :| s in rs - {r};
    }
    forall r, s | r in rs && s in rs && r != s
      ensures |rs| > 1
    {
      SubsetSize({r, s}, rs);
    }
  }

  /** An update that is valid and let through ends in the internal error if and only if the engine counts two rows. */
  lemma {:induction false} CountsExactly(e: Engine, d: Description, rows: set<Row>, values: seq<(string, string)>, key: Key,
                                         write: Writer, allows: Constraints, foundRows: bool)
    ensures var result := UpdateTable(e, d, rows, values, key, write, allows, foundRows);
      result != Err(Invalid) && result != Err(Refused) ==>
        (result == Err(Internal) <==> CountsTwo(e, d, rows, values, key, write, foundRows))
  {
    UpdateIsExact(e, d, rows, values, key, write, allows, foundRows);
    if UpdateOf(d, values, key, write).Some? {
      CountedAre(e, d, rows, values, key, write, foundRows);
      MoreThanOne(CountedRows(e, UpdateOf(d, values, key, write).value, rows, foundRows));
    }
    hide UpdateOf, Counts, CountedRows, UpdateTable, Denoted, Counted, After, Rewrites;
  }
}
