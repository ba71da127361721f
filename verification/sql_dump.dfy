/**
 * The SQL export: one `INSERT` a row, with the quoting of either engine, and when the statement
 * splitter gets exactly those statements back.
 */
module SqlDump {
  import opened Text
  import opened SqlLexer
  import opened SqlChunks
  import opened SqlPieces

  /** A cell after unwrapping; a number carries its printed text. */
  datatype Value = Null | Bool(b: bool) | Number(text: string) | Str(s: string)

  datatype Target = Table(schema: string, name: string) | QueryResult

  function QuoteIdentifier(e: Engine, name: string): string {
    var q := IdentifierQuote(e);
    [q] + ReplaceAll(name, q, [q, q]) + [q]
  }

  function IdentifierQuote(e: Engine): char { if e == Mysql then '`' else '"' }

  /** `quoteMysqlValue` and `quotePostgresqlValue`. */
  function QuoteValue(e: Engine, v: Value): string {
    match v
    case Null => "NULL"
    case Bool(b) => if b then "TRUE" else "FALSE"
    case Number(t) => t
    case Str(s) => "'" + ReplaceAll(if e == Mysql then ReplaceAll(s, '\\', "\\\\") else s, '\'', "''") + "'"
  }

  function QuoteTarget(e: Engine, target: Target): string {
    match target
    case Table(schema, name) => QuoteIdentifier(e, schema) + "." + QuoteIdentifier(e, name)
    case QueryResult => QuoteIdentifier(e, "export_result")
  }

  function QuoteIdentifiers(e: Engine, names: seq<string>): seq<string> {
    if names == [] then [] else [QuoteIdentifier(e, names[0])] + QuoteIdentifiers(e, names[1..])
  }

  function QuoteValues(e: Engine, row: seq<Value>): seq<string> {
    if row == [] then [] else [QuoteValue(e, row[0])] + QuoteValues(e, row[1..])
  }

  /** The statement printed for one row, without its `;`. */
  function Insert(e: Engine, target: Target, columns: seq<string>, row: seq<Value>): string {
    "INSERT INTO " + (QuoteTarget(e, target) + (" (" + (Join(QuoteIdentifiers(e, columns), ", ") + (") VALUES ("
    + (Join(QuoteValues(e, row), ", ") + ")")))))
  }

  function Dump(statements: seq<string>): string {
    if statements == [] then "" else statements[0] + ";\n" + Dump(statements[1..])
  }

  function Inserts(e: Engine, target: Target, columns: seq<string>, rows: seq<seq<Value>>): seq<string> {
    if rows == [] then [] else [Insert(e, target, columns, rows[0])] + Inserts(e, target, columns, rows[1..])
  }

  /** The statements of a dump that begins at `offset`, each at its own place. */
  function Printed(statements: seq<string>, offset: nat): seq<Record> {
    if statements == [] then []
    else [Record(statements[0], offset, offset + |statements[0]|)]
         + Printed(statements[1..], offset + |statements[0]| + 2)
  }

  // ---- Dumps of pieces ----

  function Texts(rows: seq<seq<Piece>>): seq<string> {
    if rows == [] then [] else [RenderAll(rows[0])] + Texts(rows[1..])
  }

  function DumpCuts(statements: seq<string>, pos: nat): seq<nat> {
    if statements == [] then []
    else [pos + |statements[0]|] + DumpCuts(statements[1..], pos + |statements[0]| + 2)
  }

  ghost predicate IsTight(s: string) {
    s != "" && !IsSpace(s[0]) && !IsSpace(s[|s| - 1])
  }

  lemma SeparatorStep(e: Engine, b: string, pos: nat)
    ensures Cuts(e, Normal, ";\n" + b, pos) == [pos] + Cuts(e, Normal, b, pos + 2)
  {
    var t := ";\n" + b;
    assert t[1..][0] == '\n' && t[1..][1..] == b;
    hide Cuts;
    Unfold(e, Normal, t, Token(Normal, 1, true), pos);
    Unfold(e, Normal, t[1..], Token(Normal, 1, false), pos + 1);
    assert [] + Cuts(e, Normal, b, pos + 2) == Cuts(e, Normal, b, pos + 2);
  }

  lemma SeparatorIgnored(e: Engine, m: Mode, b: string, pos: nat)
    requires ValidMode(e, m) && m != Normal
    ensures pos !in Cuts(e, m, ";\n" + b, pos)
  {
    var t := ";\n" + b;
    assert t[0] == ';';
    assert Step(e, m, t) == Token(m, 1, false);
    Unfold(e, m, t, Token(m, 1, false), pos);
    hide Cuts;
    CutsBounded(e, m, t[1..], pos + 1);
  }

  lemma {:induction false} SafeDumpCuts(e: Engine, rows: seq<seq<Piece>>, pos: nat)
    requires forall ps | ps in rows :: WellFormed(e, ps) && AllSafe(ps)
    ensures Cuts(e, Normal, Dump(Texts(rows)), pos) == DumpCuts(Texts(rows), pos)
  {
    hide Step, Cuts, RenderAll, AllSafe, WellFormed;
    if rows == [] {
      assert Cuts(e, Normal, "", pos) == [] by { NoCuts(e, pos); }
    } else {
      var s, rest := RenderAll(rows[0]), Dump(Texts(rows[1..]));
      assert Texts(rows)[0] == s && Texts(rows)[1..] == Texts(rows[1..]);
      Assoc(s, ";\n", rest);
      RowSkips(e, rows[0], ";\n" + rest, pos);
      SeparatorStep(e, rest, pos + |s|);
      SafeDumpCuts(e, rows[1..], pos + |s| + 2);
    }
  }

  lemma NoCuts(e: Engine, pos: nat)
    ensures Cuts(e, Normal, "", pos) == []
  {}

  lemma TightEmit(lead: string, s: string, offset: nat)
    requires (lead == "" || lead == "\n") && IsTight(s)
    ensures Emit(lead + s, offset) == [Record(s, offset + |lead|, offset + |lead| + |s|)]
  {
    hide IsSpace;
    var u := lead + s;
    assert IsSpace('\n') by { NewlineIsSpace(); }
    assert u[|lead|] == s[0] && u[|u| - 1] == s[|s| - 1];
    assert Tail(u) == |u|;
    assert lead != "" ==> u[0] == '\n' && u[1..][0] == s[0];
    assert Lead(u) == |lead|;
    assert u[|lead|..|u|] == s;
  }

  lemma NewlineIsSpace()
    ensures IsSpace('\n') && !IsSpace(';')
  {}

  lemma LeadOnly(lead: string, offset: nat)
    requires lead == "" || lead == "\n"
    ensures EmitFinal(lead, offset) == []
  {}

  lemma DumpHead(t: string, start: nat, lead: string, ss: seq<string>)
    requires start <= |t| && t[start..] == lead + Dump(ss) && ss != []
    ensures var c := start + |lead| + |ss[0]|;
      c < |t| && t[start..c] == lead + ss[0] && t[c] == ';' && t[c + 1..] == "\n" + Dump(ss[1..])
  {
    var u, s := t[start..], ss[0];
    var c := start + |lead| + |s|;
    assert u == (lead + s) + (";\n" + Dump(ss[1..]));
    assert u[..|lead + s|] == lead + s && u[|lead + s|] == ';';
    assert u[|lead + s| + 1..] == "\n" + Dump(ss[1..]);
  }

  lemma {:induction false} DumpRecords(t: string, start: nat, lead: string, ss: seq<string>)
    requires start <= |t| && (lead == "" || lead == "\n") && t[start..] == lead + Dump(ss)
    requires forall s | s in ss :: IsTight(s)
    ensures Separators(t, start, |t|, DumpCuts(ss, start + |lead|))
    ensures Records(t, start, DumpCuts(ss, start + |lead|)) == Printed(ss, start + |lead|)
    decreases ss
  {
    hide Emit, EmitFinal, IsTight;
    if ss == [] {
      assert lead + "" == lead;
      LeadOnly(lead, start);
    } else {
      var s, c := ss[0], start + |lead| + |ss[0]|;
      DumpHead(t, start, lead, ss);
      TightEmit(lead, s, start);
      DumpRecords(t, c + 1, "\n", ss[1..]);
      var cuts := DumpCuts(ss, start + |lead|);
      assert cuts[0] == c && cuts[1..] == DumpCuts(ss[1..], c + 2);
    }
  }

  /** The end of the first row with an unsafe literal is not seen, but belongs to no statement. */
  lemma {:induction false} UnsafeRowEnd(e: Engine, rows: seq<seq<Piece>>, pos: nat) returns (p: nat)
    requires forall ps | ps in rows :: WellFormed(e, ps)
    requires exists ps | ps in rows :: !AllSafe(ps)
    ensures pos <= p < pos + |Dump(Texts(rows))| && Dump(Texts(rows))[p - pos] == ';'
    ensures p !in Cuts(e, Normal, Dump(Texts(rows)), pos)
    ensures !Covered(Printed(Texts(rows), pos), p)
    decreases rows
  {
    hide Step, Cuts, RenderAll, AllSafe, WellFormed;
    var s, rest := RenderAll(rows[0]), Dump(Texts(rows[1..]));
    var ss := Texts(rows);
    assert ss[0] == s && ss[1..] == Texts(rows[1..]);
    Assoc(s, ";\n", rest);
    var next := pos + |s| + 2;
    PrintedFrom(ss[1..], next);
    if AllSafe(rows[0]) {
      assert exists ps | ps in rows[1..] :: !AllSafe(ps);
      RowSkips(e, rows[0], ";\n" + rest, pos);
      SeparatorStep(e, rest, pos + |s|);
      p := UnsafeRowEnd(e, rows[1..], next);
      assert Dump(ss)[p - pos] == rest[p - next];
    } else {
      p := pos + |s|;
      var m2 := RowStrays(e, Normal, rows[0], ";\n" + rest, pos);
      SeparatorIgnored(e, m2, rest, p);
    }
  }

  lemma {:induction false} PrintedFrom(ss: seq<string>, offset: nat)
    ensures forall r | r in Printed(ss, offset) :: offset <= r.start
  {
    if ss != [] {
      PrintedFrom(ss[1..], offset + |ss[0]| + 2);
    }
  }

  lemma {:induction false} TextsTight(rows: seq<seq<Piece>>)
    requires forall ps | ps in rows :: IsTight(RenderAll(ps))
    ensures forall s | s in Texts(rows) :: IsTight(s)
  {
    hide IsTight, RenderAll;
    if rows != [] {
      TextsTight(rows[1..]);
    }
  }

  lemma SafeDumpSplits(e: Engine, rows: seq<seq<Piece>>)
    requires forall ps | ps in rows :: WellFormed(e, ps) && IsTight(RenderAll(ps))
    requires forall ps | ps in rows :: AllSafe(ps)
    ensures Statements(e, [Dump(Texts(rows))]) == Printed(Texts(rows), 0)
  {
    hide Cuts, Dump, Texts, Printed, RenderAll, AllSafe, WellFormed, IsTight, Separators, Records, DumpCuts, Concat;
    var ss := Texts(rows);
    var t := Dump(ss);
    OneChunk(e, t);
    SafeDumpCuts(e, rows, 0);
    TextsTight(rows);
    assert t[0..] == "" + t;
    DumpRecords(t, 0, "", ss);
  }

  lemma UnsafeDumpDiffers(e: Engine, rows: seq<seq<Piece>>)
    requires forall ps | ps in rows :: WellFormed(e, ps)
    requires exists ps | ps in rows :: !AllSafe(ps)
    ensures Statements(e, [Dump(Texts(rows))]) != Printed(Texts(rows), 0)
  {
    hide Cuts, Dump, Texts, Printed, RenderAll, AllSafe, WellFormed, Separators, Records, Spans, IsSpace;
    var t := Dump(Texts(rows));
    OneChunk(e, t);
    ChunkCutsInside(e, Normal, t, 0, [t]);
    var p := UnsafeRowEnd(e, rows, 0);
    RecordsLossless(t, 0, ChunkCuts(e, Normal, [t], 0));
    NewlineIsSpace();
  }

  /**
   * A dump of rows of pieces is split into exactly its rows if and only if every quoted literal in
   * it is safe.
   */
  lemma DumpSplits(e: Engine, rows: seq<seq<Piece>>)
    requires forall ps | ps in rows :: WellFormed(e, ps) && IsTight(RenderAll(ps))
    ensures Statements(e, [Dump(Texts(rows))]) == Printed(Texts(rows), 0)
            <==> forall ps | ps in rows :: AllSafe(ps)
  {
    hide *;
    if forall ps | ps in rows :: AllSafe(ps) {
      SafeDumpSplits(e, rows);
    } else {
      UnsafeDumpDiffers(e, rows);
    }
  }

  // ---- The rows of an export ----

  /** The text of a finite number, `Infinity` or `NaN`. */
  predicate NumberText(t: string) {
    t != "" && forall i | 0 <= i < |t| ::
      || '0' <= t[i] <= '9' || 'a' <= t[i] <= 'z' || 'A' <= t[i] <= 'Z' || t[i] == '.' || t[i] == '+'
      || (t[i] == '-' && i + 1 < |t| && t[i + 1] != '-')
  }

  lemma {:induction false} NumberIsPlain(t: string)
    requires t == "" || NumberText(t)
    ensures PlainText(t)
  {
    if t != "" {
      assert forall i | 0 <= i < |t[1..]| :: t[1..][i] == t[i + 1];
      NumberIsPlain(t[1..]);
    }
  }

  function IdentifierPiece(e: Engine, name: string): Piece { Literal(IdentifierQuote(e), name) }

  function ValuePiece(e: Engine, v: Value): Piece {
    match v
    case Null => Plain("NULL")
    case Bool(b) => Plain(if b then "TRUE" else "FALSE")
    case Number(t) => Plain(t)
    case Str(s) => Literal('\'', if e == Mysql then ReplaceAll(s, '\\', "\\\\") else s)
  }

  function TargetPieces(e: Engine, target: Target): seq<Piece> {
    match target
    case Table(schema, name) => [IdentifierPiece(e, schema), Plain("."), IdentifierPiece(e, name)]
    case QueryResult => [IdentifierPiece(e, "export_result")]
  }

  function IdentifierPieces(e: Engine, names: seq<string>): seq<Piece> {
    if names == [] then [] else [IdentifierPiece(e, names[0])] + IdentifierPieces(e, names[1..])
  }

  function ValuePieces(e: Engine, row: seq<Value>): seq<Piece> {
    if row == [] then [] else [ValuePiece(e, row[0])] + ValuePieces(e, row[1..])
  }

  function JoinPieces(ps: seq<Piece>): seq<Piece> {
    if |ps| <= 1 then ps else [ps[0], Plain(", ")] + JoinPieces(ps[1..])
  }

  function InsertPieces(e: Engine, target: Target, columns: seq<string>, row: seq<Value>): seq<Piece> {
    [Plain("INSERT INTO ")] + (TargetPieces(e, target) + ([Plain(" (")] + (JoinPieces(IdentifierPieces(e, columns))
    + ([Plain(") VALUES (")] + (JoinPieces(ValuePieces(e, row)) + [Plain(")")])))))
  }

  lemma {:induction false} RenderAllAppend(ps: seq<Piece>, qs: seq<Piece>)
    ensures RenderAll(ps + qs) == RenderAll(ps) + RenderAll(qs)
  {
    hide Render;
    if ps == [] {
      assert ps + qs == qs && RenderAll(ps) == "";
    } else {
      assert (ps + qs)[0] == ps[0] && (ps + qs)[1..] == ps[1..] + qs;
      RenderAllAppend(ps[1..], qs);
      Assoc(Render(ps[0]), RenderAll(ps[1..]), RenderAll(qs));
    }
  }

  lemma RenderOne(p: Piece)
    ensures RenderAll([p]) == Render(p)
  {
    hide Render;
    assert RenderAll([]) == "" && Render(p) + "" == Render(p);
  }

  /** The printed forms of a list of pieces. */
  function Renders(ps: seq<Piece>): seq<string> {
    if ps == [] then [] else [Render(ps[0])] + Renders(ps[1..])
  }

  lemma {:induction false} JoinRenders(ps: seq<Piece>)
    ensures RenderAll(JoinPieces(ps)) == Join(Renders(ps), ", ")
  {
    hide Render;
    if |ps| == 1 {
      assert ps == [ps[0]];
      RenderOne(ps[0]);
    } else if |ps| > 1 {
      JoinRenders(ps[1..]);
      var tail := JoinPieces(ps[1..]);
      var all := [ps[0], Plain(", ")] + tail;
      assert all[0] == ps[0] && all[1..] == [Plain(", ")] + tail;
      assert all[1..][0] == Plain(", ") && all[1..][1..] == tail;
      RenderPlain(", ");
      Assoc(Render(ps[0]), ", ", RenderAll(tail));
      assert |Renders(ps)| > 1 && Renders(ps)[1..] == Renders(ps[1..]);
    }
  }

  lemma {:induction false} RendersIdentifiers(e: Engine, names: seq<string>)
    ensures Renders(IdentifierPieces(e, names)) == QuoteIdentifiers(e, names)
  {
    if names != [] {
      RendersIdentifiers(e, names[1..]);
    }
  }

  lemma {:induction false} RendersValues(e: Engine, row: seq<Value>)
    ensures Renders(ValuePieces(e, row)) == QuoteValues(e, row)
  {
    if row != [] {
      RendersValues(e, row[1..]);
    }
  }

  lemma RendersTarget(e: Engine, target: Target)
    ensures RenderAll(TargetPieces(e, target)) == QuoteTarget(e, target)
  {
    hide ReplaceAll;
    match target
    case Table(schema, name) =>
      var a, b := IdentifierPiece(e, schema), IdentifierPiece(e, name);
      assert TargetPieces(e, target) == [a] + ([Plain(".")] + [b]);
      RenderAllAppend([a], [Plain(".")] + [b]);
      RenderAllAppend([Plain(".")], [b]);
      RenderOne(a);
      RenderOne(b);
      RenderOne(Plain("."));
      Assoc(Render(a), ".", Render(b));
    case QueryResult => RenderOne(IdentifierPiece(e, "export_result"));
  }

  lemma PlainThen(t: string, ps: seq<Piece>)
    ensures RenderAll([Plain(t)] + ps) == t + RenderAll(ps)
  {
    RenderAllAppend([Plain(t)], ps);
    RenderOne(Plain(t));
  }

  lemma InsertRenders(e: Engine, target: Target, columns: seq<string>, row: seq<Value>)
    ensures RenderAll(InsertPieces(e, target, columns, row)) == Insert(e, target, columns, row)
  {
    hide Render, RenderAll, TargetPieces, QuoteTarget, JoinPieces, Join;
    var names, values := IdentifierPieces(e, columns), ValuePieces(e, row);
    RendersTarget(e, target);
    JoinRenders(names);
    JoinRenders(values);
    RendersIdentifiers(e, columns);
    RendersValues(e, row);
    RenderOne(Plain(")"));
    RenderPlain(")");
    RenderAllAppend(JoinPieces(values), [Plain(")")]);
    var p5 := JoinPieces(values) + [Plain(")")];
    PlainThen(") VALUES (", p5);
    var p4 := [Plain(") VALUES (")] + p5;
    RenderAllAppend(JoinPieces(names), p4);
    var p3 := JoinPieces(names) + p4;
    PlainThen(" (", p3);
    var p2 := [Plain(" (")] + p3;
    RenderAllAppend(TargetPieces(e, target), p2);
    PlainThen("INSERT INTO ", TargetPieces(e, target) + p2);
  }

  predicate GoodPiece(e: Engine, p: Piece) {
    match p
    case Plain(t) => t != "" && PlainText(t)
    case Literal(q, _) => IsQuote(e, q)
  }

  lemma WellFormedThen(e: Engine, p: Piece, rest: seq<Piece>)
    requires GoodPiece(e, p) && WellFormed(e, rest) && (p.Literal? ==> rest != [] && rest[0].Plain?)
    ensures WellFormed(e, [p] + rest)
  {
    hide PlainText;
    assert ([p] + rest)[1..] == rest;
  }

  lemma {:induction false} JoinWellFormed(e: Engine, ps: seq<Piece>, rest: seq<Piece>)
    requires forall p | p in ps :: GoodPiece(e, p)
    requires WellFormed(e, rest) && rest != [] && rest[0].Plain?
    ensures WellFormed(e, JoinPieces(ps) + rest)
    decreases |ps|
  {
    hide WellFormed, GoodPiece;
    if ps == [] {
      assert JoinPieces(ps) + rest == rest;
    } else if |ps| == 1 {
      assert JoinPieces(ps) + rest == [ps[0]] + rest;
      WellFormedThen(e, ps[0], rest);
    } else {
      JoinWellFormed(e, ps[1..], rest);
      var tail := JoinPieces(ps[1..]) + rest;
      CommaIsPlain(e);
      WellFormedThen(e, Plain(", "), tail);
      WellFormedThen(e, ps[0], [Plain(", ")] + tail);
      assert JoinPieces(ps) + rest == [ps[0]] + ([Plain(", ")] + tail);
    }
  }

  lemma CommaIsPlain(e: Engine)
    ensures GoodPiece(e, Plain(", "))
  {
    AllPlain(", ");
  }

  lemma {:induction false} AllPlain(t: string)
    requires forall c | c in t :: PlainChar(c)
    ensures PlainText(t)
  {
    if t != "" {
      AllPlain(t[1..]);
    }
  }

  lemma FixedTextsPlain(e: Engine)
    ensures GoodPiece(e, Plain("INSERT INTO ")) && GoodPiece(e, Plain(" (")) && GoodPiece(e, Plain(") VALUES ("))
    ensures GoodPiece(e, Plain(")")) && GoodPiece(e, Plain("."))
  {
    hide PlainText;
    AllPlain("INSERT INTO ");
    AllPlain(" (");
    AllPlain(") VALUES (");
    AllPlain(")");
    AllPlain(".");
  }

  lemma KeywordsPlain(e: Engine)
    ensures GoodPiece(e, Plain("NULL")) && GoodPiece(e, Plain("TRUE")) && GoodPiece(e, Plain("FALSE"))
  {
    hide PlainText;
    AllPlain("NULL");
    AllPlain("TRUE");
    AllPlain("FALSE");
  }

  ghost predicate GoodRow(row: seq<Value>) {
    forall v | v in row :: v.Number? ==> NumberText(v.text)
  }

  lemma {:induction false} ValuesGood(e: Engine, row: seq<Value>)
    requires GoodRow(row)
    ensures forall p | p in ValuePieces(e, row) :: GoodPiece(e, p)
  {
    hide PlainText, ReplaceAll;
    if row != [] {
      assert forall v | v in row[1..] :: v in row;
      ValuesGood(e, row[1..]);
      KeywordsPlain(e);
      assert row[0] in row;
      if row[0].Number? {
        NumberIsPlain(row[0].text);
      }
    }
  }

  lemma {:induction false} IdentifiersGood(e: Engine, names: seq<string>)
    ensures forall p | p in IdentifierPieces(e, names) :: GoodPiece(e, p)
  {
    if names != [] {
      IdentifiersGood(e, names[1..]);
    }
  }

  lemma InsertWellFormed(e: Engine, target: Target, columns: seq<string>, row: seq<Value>)
    requires GoodRow(row)
    ensures WellFormed(e, InsertPieces(e, target, columns, row))
  {
    hide GoodPiece, JoinPieces, GoodRow;
    FixedTextsPlain(e);
    ValuesGood(e, row);
    IdentifiersGood(e, columns);
    var p6 := [Plain(")")];
    assert [Plain(")")] + [] == p6;
    assert WellFormed(e, []);
    WellFormedThen(e, Plain(")"), []);
    hide WellFormed;
    JoinWellFormed(e, ValuePieces(e, row), p6);
    var p5 := JoinPieces(ValuePieces(e, row)) + p6;
    WellFormedThen(e, Plain(") VALUES ("), p5);
    var p4 := [Plain(") VALUES (")] + p5;
    JoinWellFormed(e, IdentifierPieces(e, columns), p4);
    var p3 := JoinPieces(IdentifierPieces(e, columns)) + p4;
    WellFormedThen(e, Plain(" ("), p3);
    var p2 := [Plain(" (")] + p3;
    TargetWellFormed(e, target, p2);
    WellFormedThen(e, Plain("INSERT INTO "), TargetPieces(e, target) + p2);
  }

  lemma TargetWellFormed(e: Engine, target: Target, rest: seq<Piece>)
    requires WellFormed(e, rest) && rest != [] && rest[0].Plain?
    ensures WellFormed(e, TargetPieces(e, target) + rest)
  {
    hide WellFormed, PlainText;
    FixedTextsPlain(e);
    match target
    case Table(schema, name) =>
      var a, b := IdentifierPiece(e, schema), IdentifierPiece(e, name);
      WellFormedThen(e, b, rest);
      WellFormedThen(e, Plain("."), [b] + rest);
      WellFormedThen(e, a, [Plain(".")] + ([b] + rest));
      assert TargetPieces(e, target) + rest == [a] + ([Plain(".")] + ([b] + rest));
    case QueryResult =>
      WellFormedThen(e, IdentifierPiece(e, "export_result"), rest);
  }

  lemma InsertTight(e: Engine, target: Target, columns: seq<string>, row: seq<Value>)
    ensures IsTight(Insert(e, target, columns, row))
  {
    hide QuoteTarget, Join;
    var s := Insert(e, target, columns, row);
    assert s[0] == 'I' && s[|s| - 1] == ')';
  }

  // ---- Which exports are safe ----

  ghost predicate SafeTarget(e: Engine, target: Target) {
    target.Table? ==> Safe(IdentifierQuote(e), target.schema) && Safe(IdentifierQuote(e), target.name)
  }

  ghost predicate SafeNames(e: Engine, names: seq<string>) {
    forall name | name in names :: Safe(IdentifierQuote(e), name)
  }

  /** MySQL text is always safe, PostgreSQL text when its body is. */
  ghost predicate SafeRow(e: Engine, row: seq<Value>) {
    e == Postgresql ==> forall v | v in row :: v.Str? ==> Safe('\'', v.s)
  }

  lemma {:induction false} DoubledBackslashSafe(q: char, s: string)
    requires q != '\\'
    ensures Safe(q, ReplaceAll(s, '\\', "\\\\"))
  {
    if s != "" {
      var t, rest := ReplaceAll(s, '\\', "\\\\"), ReplaceAll(s[1..], '\\', "\\\\");
      DoubledBackslashSafe(q, s[1..]);
      if s[0] == '\\' {
        assert t[2..] == rest;
      } else {
        assert t[1..] == rest;
      }
    }
  }

  lemma {:induction false} NoBackslashSafe(q: char, s: string)
    requires '\\' !in s
    ensures Safe(q, s)
  {
    if s != "" {
      NoBackslashSafe(q, s[1..]);
    }
  }

  lemma {:induction false} AllSafeAppend(ps: seq<Piece>, qs: seq<Piece>)
    ensures AllSafe(ps + qs) <==> AllSafe(ps) && AllSafe(qs)
  {
    hide Safe;
    if ps == [] {
      assert ps + qs == qs;
    } else {
      assert (ps + qs)[0] == ps[0] && (ps + qs)[1..] == ps[1..] + qs;
      AllSafeAppend(ps[1..], qs);
    }
  }

  lemma PlainSafe(t: string, ps: seq<Piece>)
    ensures AllSafe([Plain(t)] + ps) <==> AllSafe(ps)
  {
    assert ([Plain(t)] + ps)[1..] == ps;
  }

  lemma {:induction false} JoinSafe(ps: seq<Piece>)
    ensures AllSafe(JoinPieces(ps)) <==> AllSafe(ps)
    decreases |ps|
  {
    hide Safe;
    if |ps| > 1 {
      JoinSafe(ps[1..]);
      var all := JoinPieces(ps);
      assert all[0] == ps[0] && all[1..] == [Plain(", ")] + JoinPieces(ps[1..]);
      PlainSafe(", ", JoinPieces(ps[1..]));
    }
  }

  lemma {:induction false} IdentifiersSafe(e: Engine, names: seq<string>)
    ensures AllSafe(IdentifierPieces(e, names)) <==> SafeNames(e, names)
  {
    hide Safe;
    if names != [] {
      IdentifiersSafe(e, names[1..]);
      assert forall name :: name in names <==> name == names[0] || name in names[1..];
      assert IdentifierPieces(e, names)[1..] == IdentifierPieces(e, names[1..]);
    }
  }

  lemma {:induction false} ValuesSafe(e: Engine, row: seq<Value>)
    ensures AllSafe(ValuePieces(e, row)) <==> SafeRow(e, row)
  {
    hide Safe, ReplaceAll;
    if row != [] {
      ValuesSafe(e, row[1..]);
      assert forall v :: v in row <==> v == row[0] || v in row[1..];
      assert ValuePieces(e, row)[1..] == ValuePieces(e, row[1..]);
      if row[0].Str? {
        DoubledBackslashSafe('\'', row[0].s);
      }
    }
  }

  lemma OneSafe(p: Piece)
    ensures AllSafe([p]) <==> (p.Literal? ==> Safe(p.quote, p.body))
  {
    hide Safe;
    assert [p][1..] == [];
  }

  lemma TargetSafe(e: Engine, target: Target)
    ensures AllSafe(TargetPieces(e, target)) <==> SafeTarget(e, target)
  {
    hide Safe, AllSafe;
    match target
    case Table(schema, name) =>
      var a, b := IdentifierPiece(e, schema), IdentifierPiece(e, name);
      assert TargetPieces(e, target) == [a] + ([Plain(".")] + [b]);
      AllSafeAppend([a], [Plain(".")] + [b]);
      PlainSafe(".", [b]);
      OneSafe(a);
      OneSafe(b);
    case QueryResult =>
      NoBackslashSafe(IdentifierQuote(e), "export_result");
      OneSafe(IdentifierPiece(e, "export_result"));
  }

  lemma InsertSafe(e: Engine, target: Target, columns: seq<string>, row: seq<Value>)
    ensures AllSafe(InsertPieces(e, target, columns, row))
            <==> SafeTarget(e, target) && SafeNames(e, columns) && SafeRow(e, row)
  {
    hide AllSafe, JoinPieces, TargetPieces, SafeTarget, SafeNames, SafeRow;
    var names, values := IdentifierPieces(e, columns), ValuePieces(e, row);
    TargetSafe(e, target);
    IdentifiersSafe(e, columns);
    ValuesSafe(e, row);
    JoinSafe(names);
    JoinSafe(values);
    NothingSafe();
    PlainSafe(")", []);
    assert [Plain(")")] + [] == [Plain(")")];
    AllSafeAppend(JoinPieces(values), [Plain(")")]);
    var p5 := JoinPieces(values) + [Plain(")")];
    PlainSafe(") VALUES (", p5);
    var p4 := [Plain(") VALUES (")] + p5;
    AllSafeAppend(JoinPieces(names), p4);
    var p3 := JoinPieces(names) + p4;
    PlainSafe(" (", p3);
    var p2 := [Plain(" (")] + p3;
    AllSafeAppend(TargetPieces(e, target), p2);
    PlainSafe("INSERT INTO ", TargetPieces(e, target) + p2);
  }

  lemma NothingSafe()
    ensures AllSafe([])
  {}

  function AllInsertPieces(e: Engine, target: Target, columns: seq<string>, rows: seq<seq<Value>>): seq<seq<Piece>> {
    if rows == [] then []
    else [InsertPieces(e, target, columns, rows[0])] + AllInsertPieces(e, target, columns, rows[1..])
  }

  lemma {:induction false} InsertsArePieces(e: Engine, target: Target, columns: seq<string>, rows: seq<seq<Value>>)
    requires forall row | row in rows :: GoodRow(row)
    ensures var pss := AllInsertPieces(e, target, columns, rows);
      && Texts(pss) == Inserts(e, target, columns, rows)
      && (forall ps | ps in pss :: WellFormed(e, ps) && IsTight(RenderAll(ps)))
      && ((forall ps | ps in pss :: AllSafe(ps))
          <==> forall row | row in rows :: SafeTarget(e, target) && SafeNames(e, columns) && SafeRow(e, row))
  {
    hide InsertPieces, Insert, RenderAll, AllSafe, WellFormed, IsTight, GoodRow, SafeTarget, SafeNames, SafeRow;
    if rows != [] {
      var row := rows[0];
      InsertsArePieces(e, target, columns, rows[1..]);
      InsertRenders(e, target, columns, row);
      InsertWellFormed(e, target, columns, row);
      InsertTight(e, target, columns, row);
      InsertSafe(e, target, columns, row);
      var head, tail := InsertPieces(e, target, columns, row), AllInsertPieces(e, target, columns, rows[1..]);
      var pss := AllInsertPieces(e, target, columns, rows);
      assert forall ps :: ps in pss <==> ps == head || ps in tail;
      assert forall r :: r in rows <==> r == row || r in rows[1..];
    }
  }

  /**
   * The SQL export of a table is split by the import into exactly its `INSERT`s, each at its own
   * place, if and only if no identifier, and for PostgreSQL no text value, has a backslash that
   * escapes a quote or the end. MySQL values need no condition.
   */
  lemma ExportSplitsExactly(e: Engine, target: Target, columns: seq<string>, rows: seq<seq<Value>>)
    requires forall row | row in rows :: GoodRow(row)
    ensures var printed := Inserts(e, target, columns, rows);
      Statements(e, [Dump(printed)]) == Printed(printed, 0)
      <==> forall row | row in rows :: SafeTarget(e, target) && SafeNames(e, columns) && SafeRow(e, row)
  {
    hide *;
    InsertsArePieces(e, target, columns, rows);
    DumpSplits(e, AllInsertPieces(e, target, columns, rows));
  }

  /** MySQL values round-trip whatever they are, under every aligned chunking of the upload. */
  lemma MysqlExportRoundTrip(target: Target, columns: seq<string>, rows: seq<seq<Value>>, chunks: seq<string>)
    requires forall row | row in rows :: GoodRow(row)
    requires target.Table? ==> '\\' !in target.schema && '\\' !in target.name
    requires forall name | name in columns :: '\\' !in name
    requires Concat(chunks) == Dump(Inserts(Mysql, target, columns, rows)) && AlignedChunks(Mysql, Normal, chunks)
    ensures Statements(Mysql, chunks) == Printed(Inserts(Mysql, target, columns, rows), 0)
  {
    hide Inserts, Dump, Printed, Statements, Safe, Aligned;
    if target.Table? {
      NoBackslashSafe('`', target.schema);
      NoBackslashSafe('`', target.name);
    }
    forall name | name in columns
      ensures Safe('`', name)
    {
      NoBackslashSafe('`', name);
    }
    ExportSplitsExactly(Mysql, target, columns, rows);
    AlignedChunkingInvariant(Mysql, chunks);
  }

  /** A PostgreSQL text of one backslash swallows its closing quote. */
  lemma BackslashBreaksPostgresqlExport()
    ensures var printed := Inserts(Postgresql, QueryResult, ["c"], [[Str("\\")]]);
      Statements(Postgresql, [Dump(printed)]) != Printed(printed, 0)
  {
    hide Inserts, Dump, Printed, Statements;
    var row := [Str("\\")];
    assert row[0] in row && !Safe('\'', row[0].s);
    assert row in [row];
    ExportSplitsExactly(Postgresql, QueryResult, ["c"], [row]);
  }
}
