/**
 * SQL exports of structure and data, of one table or of a whole database: what the import finds in
 * the file. A file of statements is split exactly if and only if each of them alone is.
 */
module SqlExport {
  import opened Text
  import opened SqlLexer
  import opened SqlChunks
  import opened SqlDump
  import opened ExportWriter

  // ---- A text that ends in a semicolon leaves nothing pending ----

  lemma OpenDoesNotEnd(e: Engine, m: Mode, t: string)
    requires ValidMode(e, m) && t != "" && t[|t| - 1] == ';'
    ensures !Open(e, m, t)
  {
    hide IdentLength;
    if m == Normal && PartialTag(t) {
      PartialTagParts(t);
    }
  }

  lemma PartialTagParts(t: string)
    requires t != "" && PartialTag(t)
    ensures t[|t| - 1] != ';'
  {
    WordParts(t[1..]);
    if |t| > 1 {
      assert t[|t| - 1] == t[1..][|t| - 2];
    }
  }

  lemma {:induction false} SemicolonNotPending(e: Engine, m: Mode, t: string)
    requires ValidMode(e, m) && t != "" && t[|t| - 1] == ';'
    ensures !Pending(e, m, t)
    decreases |t|
  {
    hide Step, Open, ValidMode;
    OpenDoesNotEnd(e, m, t);
    var k := Step(e, m, t);
    if k.width < |t| {
      StepValid(e, m, t);
      var rest := t[k.width..];
      assert rest[|rest| - 1] == ';';
      SemicolonNotPending(e, k.mode, rest);
    }
  }

  /** What follows a semicolon is read on from the mode after it. */
  lemma CutsAfter(e: Engine, s: string, b: string, pos: nat)
    ensures Cuts(e, Normal, (s + ";") + b, pos)
         == Cuts(e, Normal, s + ";", pos) + Cuts(e, EndMode(e, Normal, s + ";"), b, pos + |s| + 1)
  {
    hide Step, Cuts, EndMode, Pending, Aligned;
    SemicolonNotPending(e, Normal, s + ";");
    NotPendingAligned(e, Normal, s + ";", b);
    Sync(e, Normal, s + ";", b, pos);
  }

  /** After a cut at the very end the splitter is in `Normal`. */
  lemma {:induction false} CutAtEnd(e: Engine, m: Mode, t: string, pos: nat)
    requires t != "" && pos + |t| - 1 in Cuts(e, m, t, pos)
    ensures EndMode(e, m, t) == Normal
    decreases |t|
  {
    hide Step;
    var k, rest := Step(e, m, t), Rest(e, m, t);
    if rest != "" {
      CutAtEnd(e, k.mode, rest, pos + |t| - |rest|);
    } else {
      assert k.cut;
    }
  }

  lemma LineEnd(e: Engine, dump: string, pos: nat)
    ensures Cuts(e, Normal, "\n" + dump, pos) == Cuts(e, Normal, dump, pos + 1)
  {
    var t := "\n" + dump;
    assert t[0] == '\n' && t[1..] == dump;
    Unfold(e, Normal, t, Token(Normal, 1, false), pos);
  }

  /** The positions count from where the text begins. */
  ghost predicate Shifted(here: seq<nat>, there: seq<nat>, by_: nat) {
    |here| == |there| && forall i | 0 <= i < |here| :: there[i] == here[i] + by_
  }

  lemma {:induction false} CutsShift(e: Engine, m: Mode, t: string, pos: nat, by_: nat)
    ensures Shifted(Cuts(e, m, t, pos), Cuts(e, m, t, pos + by_), by_)
    decreases |t|
  {
    hide Step;
    if t != "" {
      var k, rest := Step(e, m, t), Rest(e, m, t);
      CutsShift(e, k.mode, rest, pos + |t| - |rest|, by_);
    }
  }

  /** The semicolon after `s` is the only cut. */
  predicate EndsOnly(e: Engine, s: string) { Cuts(e, Normal, s + ";", 0) == [|s|] }

  lemma EndsOnlyAt(e: Engine, s: string, pos: nat)
    ensures EndsOnly(e, s) <==> Cuts(e, Normal, s + ";", pos) == [pos + |s|]
  {
    hide Cuts;
    CutsShift(e, Normal, s + ";", 0, pos);
  }

  /** In a list that joins values below `c` with values from `c` on, the values tell where it was joined. */
  lemma Joint(xs: seq<nat>, ys: seq<nat>, c: nat, i: nat)
    requires (forall x | x in xs :: x < c) && (forall y | y in ys :: c <= y) && i < |xs + ys|
    ensures (xs + ys)[i] < c <==> i < |xs|
  {
    assert i < |xs| ==> (xs + ys)[i] in xs;
    assert i >= |xs| ==> (xs + ys)[i] in ys;
  }

  lemma CutInTwo(xs: seq<nat>, ys: seq<nat>, us: seq<nat>, vs: seq<nat>, c: nat)
    requires (forall x | x in xs || x in us :: x < c) && forall y | y in ys || y in vs :: c <= y
    ensures xs + ys == us + vs <==> xs == us && ys == vs
  {
    if xs + ys == us + vs {
      var all := xs + ys;
      if |us| < |all| {
        Joint(xs, ys, c, |us|);
        Joint(us, vs, c, |us|);
      }
      if |xs| < |all| {
        Joint(xs, ys, c, |xs|);
        Joint(us, vs, c, |xs|);
      }
      assert xs == all[..|xs|] && us == all[..|us|];
      assert ys == all[|xs|..] && vs == all[|us|..];
    }
  }

  lemma {:induction false} DumpCutsFrom(ss: seq<string>, pos: nat)
    ensures forall c | c in DumpCuts(ss, pos) :: pos <= c
  {
    if ss != [] {
      DumpCutsFrom(ss[1..], pos + |ss[0]| + 2);
    }
  }

  /** The cuts of a file that begins with the statement `s`. */
  lemma FirstCuts(e: Engine, s: string, rest: string, more: seq<nat>, pos: nat)
    requires forall c | c in more :: pos + |s| + 2 <= c
    ensures Cuts(e, Normal, (s + ";") + ("\n" + rest), pos) == [pos + |s|] + more
            <==> EndsOnly(e, s) && Cuts(e, Normal, rest, pos + |s| + 2) == more
  {
    hide Step, Cuts, EndMode, EndsOnly;
    var mode, next := EndMode(e, Normal, s + ";"), pos + |s| + 1;
    CutsAfter(e, s, "\n" + rest, pos);
    EndsOnlyAt(e, s, pos);
    CutsBounded(e, Normal, s + ";", pos);
    CutsBounded(e, mode, "\n" + rest, next);
    CutInTwo(Cuts(e, Normal, s + ";", pos), Cuts(e, mode, "\n" + rest, next), [pos + |s|], more, next);
    if EndsOnly(e, s) {
      CutAtEnd(e, Normal, s + ";", pos);
      LineEnd(e, rest, next);
    }
  }

  /** The cuts of a file are those between its statements if and only if each statement ends at its own semicolon only. */
  lemma {:induction false} FileCuts(e: Engine, ss: seq<string>, pos: nat)
    ensures Cuts(e, Normal, Dump(ss), pos) == DumpCuts(ss, pos) <==> forall s | s in ss :: EndsOnly(e, s)
    decreases ss
  {
    hide Cuts, EndsOnly;
    if ss == [] {
      NoCuts(e, pos);
    } else {
      var s, rest, next := ss[0], Dump(ss[1..]), pos + |ss[0]| + 2;
      assert Dump(ss) == (s + ";") + ("\n" + rest);
      DumpCutsFrom(ss[1..], next);
      FirstCuts(e, s, rest, DumpCuts(ss[1..], next), pos);
      FileCuts(e, ss[1..], next);
      assert forall x :: x in ss <==> x == s || x in ss[1..];
    }
  }

  // ---- From the cuts to the statements ----

  lemma EmitWithin(t: string, start: nat, end: nat)
    requires start <= end <= |t|
    ensures forall r | r in Emit(t[start..end], start) :: start <= r.start && r.end <= end
  {
    hide IsSpace, Lead, Tail, Trim;
  }

  lemma FinalWithin(t: string, start: nat)
    requires start <= |t|
    ensures forall r | r in EmitFinal(t[start..], start) :: start <= r.start
  {
    hide Trim;
  }

  /** No statement reaches over a cut. */
  lemma {:induction false} RecordsAvoidCuts(t: string, start: nat, cuts: seq<nat>)
    requires start <= |t| && Separators(t, start, |t|, cuts)
    ensures forall r | r in Records(t, start, cuts) :: start <= r.start
    ensures forall c | c in cuts :: !Covered(Records(t, start, cuts), c)
    decreases |cuts|
  {
    hide Emit, EmitFinal;
    if cuts == [] {
      FinalWithin(t, start);
    } else {
      var c, rest := cuts[0], cuts[1..];
      var one, others := Emit(t[start..c], start), Records(t, c + 1, rest);
      EmitWithin(t, start, c);
      RecordsAvoidCuts(t, c + 1, rest);
      SeparatorsHit(t, c + 1, rest);
      forall x, r: SqlLexer.Record | x in cuts && r in one + others
        ensures start <= r.start && !(r.start <= x < r.end)
      {
        assert (x == c || x in rest) && (r in one || r in others);
        assert x in rest && r in others ==> !Covered(others, x);
      }
    }
  }

  /** The semicolons outside the printed statements are the separators. */
  lemma {:induction false} SeparatorsOf(ss: seq<string>, pos: nat, c: nat)
    requires pos <= c < pos + |Dump(ss)|
    ensures c in DumpCuts(ss, pos) <==> Dump(ss)[c - pos] == ';' && !Covered(Printed(ss, pos), c)
    decreases ss
  {
    var s, rest, next := ss[0], Dump(ss[1..]), pos + |ss[0]| + 2;
    var first, more := Record(s, pos, pos + |s|), Printed(ss[1..], next);
    assert Dump(ss) == (s + ";\n") + rest;
    PrintedFrom(ss[1..], next);
    DumpCutsFrom(ss[1..], next);
    assert Printed(ss, pos) == [first] + more;
    if c < next {
      assert c == pos + |s| ==> !Covered(Printed(ss, pos), c);
      assert c < pos + |s| ==> first in Printed(ss, pos);
    } else {
      SeparatorsOf(ss[1..], next, c);
      assert Dump(ss)[c - pos] == rest[c - next];
      assert Covered(Printed(ss, pos), c) <==> Covered(more, c) by {
        assert forall r :: r in Printed(ss, pos) <==> r == first || r in more;
      }
    }
  }

  lemma {:induction false} SameSeparators(t: string, start: nat, xs: seq<nat>, ys: seq<nat>)
    requires Separators(t, start, |t|, xs) && Separators(t, start, |t|, ys)
    requires forall c :: c in xs <==> c in ys
    ensures xs == ys
    decreases |xs|
  {
    assert forall i | 0 <= i < |xs| :: xs[i] in ys;
    assert forall i | 0 <= i < |ys| :: ys[i] in xs;
    if xs != [] && ys != [] {
      SeparatorsHit(t, xs[0] + 1, xs[1..]);
      SeparatorsHit(t, ys[0] + 1, ys[1..]);
      assert xs[0] in xs && ys[0] in ys;
      assert forall c :: c in xs <==> c == xs[0] || c in xs[1..];
      assert forall c :: c in ys <==> c == ys[0] || c in ys[1..];
      SameSeparators(t, xs[0] + 1, xs[1..], ys[1..]);
    }
  }

  /** The semicolons outside the statements are the cuts, whatever the cuts are. */
  lemma CutsOf(t: string, cuts: seq<nat>, c: nat)
    requires Separators(t, 0, |t|, cuts) && c < |t|
    ensures c in cuts <==> t[c] == ';' && !Covered(Records(t, 0, cuts), c)
  {
    hide Records, IsSpace, Covered, Spans, Separators;
    RecordsLossless(t, 0, cuts);
    RecordsAvoidCuts(t, 0, cuts);
    SeparatorsHit(t, 0, cuts);
    NewlineIsSpace();
  }

  /** A file of statements is split into exactly these if and only if it is cut exactly between them. */
  lemma CutsDecide(e: Engine, ss: seq<string>)
    requires forall s | s in ss :: IsTight(s)
    ensures Statements(e, [Dump(ss)]) == Printed(ss, 0) <==> Cuts(e, Normal, Dump(ss), 0) == DumpCuts(ss, 0)
  {
    hide Cuts, Dump, Printed, DumpCuts, IsTight, Separators, Records, Concat, ChunkCuts, Covered;
    var t, cuts, between := Dump(ss), Cuts(e, Normal, Dump(ss), 0), DumpCuts(ss, 0);
    OneChunk(e, t);
    assert t[0..] == t == "" + t && t[0..|t|] == t;
    CutsInside(e, Normal, t, 0, |t|);
    DumpRecords(t, 0, "", ss);
    SeparatorsHit(t, 0, cuts);
    SeparatorsHit(t, 0, between);
    if Records(t, 0, cuts) == Printed(ss, 0) {
      forall c
        ensures c in cuts <==> c in between
      {
        if 0 <= c < |t| {
          CutsOf(t, cuts, c);
          SeparatorsOf(ss, 0, c);
        }
      }
      SameSeparators(t, 0, cuts, between);
    }
  }

  /** Alone in a file, the statement comes back as it is. */
  ghost predicate Whole(e: Engine, s: string) { Statements(e, [Dump([s])]) == Printed([s], 0) }

  lemma WholeEndsOnly(e: Engine, s: string)
    requires IsTight(s)
    ensures Whole(e, s) <==> EndsOnly(e, s)
  {
    hide Cuts, Dump, Printed, DumpCuts, IsTight, Statements, EndsOnly;
    CutsDecide(e, [s]);
    FileCuts(e, [s], 0);
    assert s in [s] && forall x | x in [s] :: x == s;
  }

  /** Any file of statements is split into exactly these if and only if each of them alone is. */
  lemma FileSplitsExactly(e: Engine, ss: seq<string>)
    requires forall s | s in ss :: IsTight(s)
    ensures Statements(e, [Dump(ss)]) == Printed(ss, 0) <==> forall s | s in ss :: Whole(e, s)
  {
    hide *;
    CutsDecide(e, ss);
    FileCuts(e, ss, 0);
    forall s | s in ss
      ensures Whole(e, s) <==> EndsOnly(e, s)
    {
      WholeEndsOnly(e, s);
    }
  }

  // ---- Exports of several tables ----

  /** A table to be exported; `create` is its definition without the final semicolon. */
  datatype TableExport = TableExport(target: Target, columns: seq<string>, rows: seq<Row>, create: string)

  function TableText(e: Engine, scope: Scope, t: TableExport): string {
    Exported(e, t.columns, t.rows, SqlFormat(scope), t.target, t.create + ";")
  }

  function DatabaseText(e: Engine, scope: Scope, tables: seq<TableExport>): string {
    if tables == [] then "" else TableText(e, scope, tables[0]) + DatabaseText(e, scope, tables[1..])
  }

  function RowCount(tables: seq<TableExport>): nat {
    if tables == [] then 0 else |tables[0].rows| + RowCount(tables[1..])
  }

  lemma {:induction false} DatabaseNext(e: Engine, scope: Scope, tables: seq<TableExport>, t: TableExport)
    ensures DatabaseText(e, scope, tables + [t]) == DatabaseText(e, scope, tables) + TableText(e, scope, t)
    ensures RowCount(tables + [t]) == RowCount(tables) + |t.rows|
  {
    hide TableText;
    if tables == [] {
      assert tables + [t] == [t] && [t][1..] == [];
      assert DatabaseText(e, scope, []) == "" && TableText(e, scope, t) + "" == TableText(e, scope, t);
    } else {
      assert (tables + [t])[0] == tables[0] && (tables + [t])[1..] == tables[1..] + [t];
      DatabaseNext(e, scope, tables[1..], t);
      Assoc(TableText(e, scope, tables[0]), DatabaseText(e, scope, tables[1..]), TableText(e, scope, t));
    }
  }

  /** The loop over the tables of a database, all into one file. */
  method WriteDatabase(e: Engine, scope: Scope, tables: seq<TableExport>) returns (file: string, rowCount: nat)
    ensures file == DatabaseText(e, scope, tables) && rowCount == RowCount(tables)
  {
    hide Exported;
    file, rowCount := "", 0;
    for i := 0 to |tables|
      invariant file == DatabaseText(e, scope, tables[..i]) && rowCount == RowCount(tables[..i])
    {
      var t := tables[i];
      var text, count := WriteRows(e, t.columns, t.rows, SqlFormat(scope), t.target, t.create + ";");
      DatabaseNext(e, scope, tables[..i], t);
      assert tables[..i] + [t] == tables[..i + 1];
      file, rowCount := file + text, rowCount + count;
    }
    assert tables[..|tables|] == tables;
  }

  function TableStatements(e: Engine, scope: Scope, t: TableExport): seq<string> {
    (if scope != Data then [t.create] else [])
    + (if scope != Structure then Inserts(e, t.target, t.columns, AllCells(t.columns, t.rows)) else [])
  }

  /** The statements of the file in order. */
  function DatabaseStatements(e: Engine, scope: Scope, tables: seq<TableExport>): seq<string> {
    if tables == [] then [] else TableStatements(e, scope, tables[0]) + DatabaseStatements(e, scope, tables[1..])
  }

  lemma {:induction false} DumpConcat(xs: seq<string>, ys: seq<string>)
    ensures Dump(xs + ys) == Dump(xs) + Dump(ys)
  {
    if xs == [] {
      assert xs + ys == ys && Dump(xs) == "";
    } else {
      assert (xs + ys)[0] == xs[0] && (xs + ys)[1..] == xs[1..] + ys;
      DumpConcat(xs[1..], ys);
      Assoc(xs[0] + ";\n", Dump(xs[1..]), Dump(ys));
    }
  }

  lemma TableIsDump(e: Engine, scope: Scope, t: TableExport)
    ensures TableText(e, scope, t) == Dump(TableStatements(e, scope, t))
  {
    hide Inserts, AllCells;
    var inserts := Inserts(e, t.target, t.columns, AllCells(t.columns, t.rows));
    var head, body := if scope != Data then [t.create] else [], if scope != Structure then inserts else [];
    DumpConcat(head, body);
    assert [t.create][1..] == [] && Dump([]) == "";
    assert Dump([t.create]) == t.create + ";" + "\n";
    assert TableText(e, scope, t) == Dump(head) + Dump(body) + "";
  }

  lemma {:induction false} DatabaseIsDump(e: Engine, scope: Scope, tables: seq<TableExport>)
    ensures DatabaseText(e, scope, tables) == Dump(DatabaseStatements(e, scope, tables))
  {
    hide TableText, TableStatements;
    if tables != [] {
      TableIsDump(e, scope, tables[0]);
      DatabaseIsDump(e, scope, tables[1..]);
      DumpConcat(TableStatements(e, scope, tables[0]), DatabaseStatements(e, scope, tables[1..]));
    }
  }

  /** What the backslash condition says of the rows of a table. */
  ghost predicate SafeRows(e: Engine, t: TableExport) {
    forall row | row in t.rows :: SafeTarget(e, t.target) && SafeNames(e, t.columns) && SafeRow(e, Cells(t.columns, row))
  }

  ghost predicate SafeTable(e: Engine, scope: Scope, t: TableExport) {
    (scope != Data ==> Whole(e, t.create)) && (scope != Structure ==> SafeRows(e, t))
  }

  ghost predicate GoodTable(t: TableExport) {
    IsTight(t.create) && forall row | row in t.rows :: GoodRow(Cells(t.columns, row))
  }

  lemma {:induction false} InsertsWhole(e: Engine, target: Target, columns: seq<string>, rows: seq<seq<Value>>)
    requires forall row | row in rows :: GoodRow(row)
    ensures forall s | s in Inserts(e, target, columns, rows) :: IsTight(s)
    ensures (forall s | s in Inserts(e, target, columns, rows) :: Whole(e, s))
            <==> forall row | row in rows :: SafeTarget(e, target) && SafeNames(e, columns) && SafeRow(e, row)
  {
    hide Whole, IsTight, GoodRow, SafeTarget, SafeNames, SafeRow, Insert;
    if rows != [] {
      var s, more := Insert(e, target, columns, rows[0]), Inserts(e, target, columns, rows[1..]);
      InsertsWhole(e, target, columns, rows[1..]);
      InsertWhole(e, target, columns, rows[0]);
      assert forall x :: x in Inserts(e, target, columns, rows) <==> x == s || x in more;
      assert forall row :: row in rows <==> row == rows[0] || row in rows[1..];
    }
  }

  lemma InsertWhole(e: Engine, target: Target, columns: seq<string>, row: seq<Value>)
    requires GoodRow(row)
    ensures IsTight(Insert(e, target, columns, row))
    ensures Whole(e, Insert(e, target, columns, row))
            <==> SafeTarget(e, target) && SafeNames(e, columns) && SafeRow(e, row)
  {
    hide GoodRow, SafeTarget, SafeNames, SafeRow, Insert, Statements, Dump, Printed, IsTight;
    InsertTight(e, target, columns, row);
    ExportSplitsExactly(e, target, columns, [row]);
    assert [row][1..] == [] && Inserts(e, target, columns, []) == [];
    assert Inserts(e, target, columns, [row]) == [Insert(e, target, columns, row)];
    assert row in [row] && forall x | x in [row] :: x == row;
  }

  lemma TableWhole(e: Engine, scope: Scope, t: TableExport)
    requires GoodTable(t)
    ensures forall s | s in TableStatements(e, scope, t) :: IsTight(s)
    ensures (forall s | s in TableStatements(e, scope, t) :: Whole(e, s)) <==> SafeTable(e, scope, t)
  {
    hide Whole, IsTight, GoodRow, SafeTarget, SafeNames, SafeRow, Inserts, Cells;
    var cells := AllCells(t.columns, t.rows);
    assert forall c :: c in cells ==> exists i :: 0 <= i < |t.rows| && c == Cells(t.columns, t.rows[i]) && t.rows[i] in t.rows;
    assert forall i | 0 <= i < |t.rows| :: cells[i] == Cells(t.columns, t.rows[i]) && cells[i] in cells;
    InsertsWhole(e, t.target, t.columns, cells);
    assert forall s :: s in TableStatements(e, scope, t) <==>
      (scope != Data && s == t.create) || (scope != Structure && s in Inserts(e, t.target, t.columns, cells));
  }

  lemma {:induction false} DatabaseWhole(e: Engine, scope: Scope, tables: seq<TableExport>)
    requires forall t | t in tables :: GoodTable(t)
    ensures forall s | s in DatabaseStatements(e, scope, tables) :: IsTight(s)
    ensures (forall s | s in DatabaseStatements(e, scope, tables) :: Whole(e, s))
            <==> forall t | t in tables :: SafeTable(e, scope, t)
  {
    hide Whole, IsTight, GoodTable, SafeTable, TableStatements;
    if tables != [] {
      TableWhole(e, scope, tables[0]);
      DatabaseWhole(e, scope, tables[1..]);
      assert forall s :: s in DatabaseStatements(e, scope, tables) <==>
        s in TableStatements(e, scope, tables[0]) || s in DatabaseStatements(e, scope, tables[1..]);
      assert forall t :: t in tables <==> t == tables[0] || t in tables[1..];
    }
  }

  /**
   * An SQL export of any tables and any scope, under every aligned chunking: the import finds exactly
   * the definitions and `INSERT`s, each at its own place, if and only if every definition that is
   * printed comes back alone, and no identifier or text value of a printed row has a backslash that
   * escapes a quote or the end.
   */
  lemma WholeExportSplitsExactly(e: Engine, scope: Scope, tables: seq<TableExport>, chunks: seq<string>)
    requires Concat(chunks) == DatabaseText(e, scope, tables) && AlignedChunks(e, Normal, chunks)
    requires forall t | t in tables :: GoodTable(t)
    ensures Statements(e, chunks) == Printed(DatabaseStatements(e, scope, tables), 0)
            <==> forall t | t in tables :: SafeTable(e, scope, t)
  {
    hide *;
    AlignedChunkingInvariant(e, chunks);
    DatabaseIsDump(e, scope, tables);
    DatabaseWhole(e, scope, tables);
    FileSplitsExactly(e, DatabaseStatements(e, scope, tables));
  }
}
