/**
 * The CSV printer of exports and the streaming CSV reader of imports.
 */
module CsvCodec {
  import opened Text

  // ---- Printing ----

  predicate IsDelimiter(d: char) { d == ',' || d == ';' || d == '\t' }

  predicate NeedsQuotes(v: string, d: char) { d in v || '"' in v || '\r' in v || '\n' in v }

  function EscapeCsv(v: string, d: char): string {
    if NeedsQuotes(v, d) then "\"" + ReplaceAll(v, '"', "\"\"") + "\"" else v
  }

  function EscapeRow(row: seq<string>, d: char): seq<string> {
    if row == [] then [] else [EscapeCsv(row[0], d)] + EscapeRow(row[1..], d)
  }

  function PrintRow(row: seq<string>, d: char): string { Join(EscapeRow(row, d), [d]) + "\n" }

  function PrintRows(rows: seq<seq<string>>, d: char): string {
    if rows == [] then "" else PrintRow(rows[0], d) + PrintRows(rows[1..], d)
  }

  // ---- Reading ----

  /** The reader's variables, with the rows it has yielded. */
  datatype Reader = Reader(field: string, row: seq<string>, quoted: bool, atFieldStart: bool, rows: seq<seq<string>>)

  const START := Reader("", [], false, true, [])

  ghost predicate Valid(r: Reader) { (r.quoted ==> !r.atFieldStart) && (r.atFieldStart ==> r.field == "") }

  /** Two quotes in a quoted field: the only token of two characters. */
  predicate IsEscapedQuote(r: Reader, t: string) { r.quoted && |t| > 1 && t[0] == '"' && t[1] == '"' }

  function Width(r: Reader, t: string): nat { if IsEscapedQuote(r, t) then 2 else 1 }

  function Step(r: Reader, d: char, t: string): Reader
    requires t != ""
  {
    if r.quoted then
      if IsEscapedQuote(r, t) then r.(field := r.field + "\"")
      else if t[0] == '"' then r.(quoted := false)
      else r.(field := r.field + [t[0]])
    else if t[0] == '"' && r.atFieldStart then r.(quoted := true, atFieldStart := false)
    else if t[0] == d then r.(row := r.row + [r.field], field := "", atFieldStart := true)
    else if t[0] == '\n' then
      r.(rows := r.rows + [r.row + [r.field]], row := [], field := "", atFieldStart := true)
    else if t[0] == '\r' then r
    else r.(field := r.field + [t[0]], atFieldStart := false)
  }

  function Read(r: Reader, d: char, t: string): Reader
    decreases |t|
  {
    if t == "" then r else Read(Step(r, d, t), d, t[Width(r, t)..])
  }

  function ReadChunks(r: Reader, d: char, chunks: seq<string>): Reader
    decreases chunks
  {
    if chunks == [] then r else ReadChunks(Read(r, d, chunks[0]), d, chunks[1..])
  }

  /** A last row without a line end counts unless it is empty. */
  function Finish(r: Reader): seq<seq<string>> {
    if r.row != [] || r.field != "" then r.rows + [r.row + [r.field]] else r.rows
  }

  /** All rows read from an upload. */
  function Rows(d: char, chunks: seq<string>): seq<seq<string>> { Finish(ReadChunks(START, d, chunks)) }

  method CsvRecords(chunks: seq<string>, d: char) returns (rows: seq<seq<string>>)
    ensures rows == Rows(d, chunks)
  {
    var field, row, quoted, atFieldStart := "", [], false, true;
    rows := [];
    assert chunks[0..] == chunks;
    for c := 0 to |chunks|
      invariant ReadChunks(Reader(field, row, quoted, atFieldStart, rows), d, chunks[c..])
             == ReadChunks(START, d, chunks)
    {
      ghost var before := Reader(field, row, quoted, atFieldStart, rows);
      assert chunks[c..][1..] == chunks[c + 1..];
      var text := chunks[c];
      var index := 0;
      assert text[0..] == text;
      while index < |text|
        invariant index <= |text|
        invariant Read(Reader(field, row, quoted, atFieldStart, rows), d, text[index..]) == Read(before, d, text)
      {
        ghost var now, t := Reader(field, row, quoted, atFieldStart, rows), text[index..];
        assert t[Width(now, t)..] == text[index + Width(now, t)..];
        assert index + 1 < |text| ==> t[1] == text[index + 1];
        var current := text[index];
        if quoted {
          if current == '"' {
            if index + 1 < |text| && text[index + 1] == '"' {
              field := field + "\"";
              index := index + 1;
            } else {
              quoted := false;
            }
          } else {
            field := field + [current];
          }
        } else if current == '"' && atFieldStart {
          quoted := true;
          atFieldStart := false;
        } else if current == d {
          row := row + [field];
          field := "";
          atFieldStart := true;
        } else if current == '\n' {
          row := row + [field];
          field := "";
          atFieldStart := true;
          rows := rows + [row];
          row := [];
        } else if current != '\r' {
          field := field + [current];
          atFieldStart := false;
        }
        index := index + 1;
      }
    }
    if |row| > 0 || |field| > 0 {
      rows := rows + [row + [field]];
    }
  }

  // ---- Chunk boundaries ----

  /** The boundary does not split an escaped quote of the reader run on the joined text. */
  predicate Aligned(r: Reader, d: char, a: string, b: string)
    decreases |a|
  {
    if a == "" || b == "" then true
    else
      Width(r, a + b) <= |a| && Aligned(Step(r, d, a + b), d, a[Width(r, a + b)..], b)
  }

  predicate AlignedChunks(r: Reader, d: char, chunks: seq<string>)
    decreases chunks
  {
    chunks == []
    || (Aligned(r, d, chunks[0], Concat(chunks[1..])) && AlignedChunks(Read(r, d, chunks[0]), d, chunks[1..]))
  }

  lemma Unfold(r: Reader, d: char, t: string, w: nat)
    requires t != "" && w == Width(r, t)
    ensures w <= |t| && Read(r, d, t) == Read(Step(r, d, t), d, t[w..])
  {
    hide Step;
  }

  lemma {:induction false} Sync(r: Reader, d: char, a: string, b: string)
    requires Aligned(r, d, a, b)
    ensures Read(r, d, a + b) == Read(Read(r, d, a), d, b)
    decreases |a|
  {
    hide Step, Read;
    if a == "" {
      assert a + b == b;
      ReadNothing(r, d);
    } else if b == "" {
      assert a + b == a;
      ReadNothing(Read(r, d, a), d);
    } else {
      var w := Width(r, a + b);
      SameStep(r, d, a, b);
      Unfold(r, d, a, w);
      Unfold(r, d, a + b, w);
      assert (a + b)[w..] == a[w..] + b;
      Sync(Step(r, d, a), d, a[w..], b);
    }
  }

  lemma ReadNothing(r: Reader, d: char)
    ensures Read(r, d, "") == r
  {}

  lemma SameStep(r: Reader, d: char, a: string, b: string)
    requires a != "" && Width(r, a + b) <= |a|
    ensures Step(r, d, a + b) == Step(r, d, a) && Width(r, a) == Width(r, a + b)
  {
    assert (a + b)[0] == a[0];
    assert |a| > 1 ==> (a + b)[1] == a[1];
  }

  lemma {:induction false} AlignedRead(r: Reader, d: char, chunks: seq<string>)
    requires AlignedChunks(r, d, chunks)
    ensures ReadChunks(r, d, chunks) == Read(r, d, Concat(chunks))
    decreases chunks
  {
    hide Step, Aligned, Read;
    if chunks == [] {
      ReadNothing(r, d);
    } else {
      Sync(r, d, chunks[0], Concat(chunks[1..]));
      AlignedRead(Read(r, d, chunks[0]), d, chunks[1..]);
    }
  }

  /** Chunking invariance: an aligned upload yields the rows of the whole text. */
  lemma AlignedChunkingInvariant(d: char, chunks: seq<string>)
    requires AlignedChunks(START, d, chunks)
    ensures Rows(d, chunks) == Rows(d, [Concat(chunks)])
  {
    hide Read;
    AlignedRead(START, d, chunks);
    OneChunk(d, Concat(chunks));
  }

  lemma OneChunk(d: char, t: string)
    ensures Rows(d, [t]) == Finish(Read(START, d, t))
  {
    hide Read;
    assert [t][1..] == [];
    assert ReadChunks(Read(START, d, t), d, [t][1..]) == Read(START, d, t);
  }

  lemma TwoChunks(d: char, a: string, b: string)
    ensures Rows(d, [a, b]) == Finish(Read(Read(START, d, a), d, b))
  {
    hide Read;
    assert [a, b][1..] == [b] && [b][1..] == [];
    assert ReadChunks(Read(START, d, a), d, [b]) == Read(Read(START, d, a), d, b);
  }

  /** The text ends with a quote read inside a quoted field: it may close it or be escaped. */
  predicate EndsOnQuote(r: Reader, d: char, a: string)
    decreases |a|
  {
    a != "" && ((r.quoted && a == "\"") || EndsOnQuote(Step(r, d, a), d, a[Width(r, a)..]))
  }

  lemma StepValid(r: Reader, d: char, t: string)
    requires Valid(r) && t != ""
    ensures Valid(Step(r, d, t))
  {}

  lemma {:induction false} NotOnQuoteAligned(r: Reader, d: char, a: string, b: string)
    requires !EndsOnQuote(r, d, a)
    ensures Aligned(r, d, a, b)
    decreases |a|
  {
    hide Step;
    if a != "" && b != "" {
      var u := a + b;
      assert u[0] == a[0];
      assert |a| > 1 ==> u[1] == a[1];
      SameStep(r, d, a, b);
      NotOnQuoteAligned(Step(r, d, a), d, a[Width(r, a)..], b);
    }
  }

  const QUOTED_LINE := "\"\n"

  /** After a quote at the end of `a`, a quote and a line end are read differently. */
  lemma {:induction false} OnQuoteDiffers(r: Reader, d: char, a: string)
    requires IsDelimiter(d) && Valid(r) && EndsOnQuote(r, d, a)
    ensures Finish(Read(r, d, a + QUOTED_LINE)) != Finish(Read(Read(r, d, a), d, QUOTED_LINE))
    decreases |a|
  {
    if r.quoted && a == "\"" {
      LastQuote(r, d);
    } else {
      hide Step, Read, Valid;
      var u, w := a + QUOTED_LINE, Width(r, a);
      assert a[w..] != "" && u[0] == a[0] && u[1] == a[1];
      SameStep(r, d, a, QUOTED_LINE);
      StepValid(r, d, a);
      Unfold(r, d, a, w);
      Unfold(r, d, u, w);
      assert u[w..] == a[w..] + QUOTED_LINE;
      OnQuoteDiffers(Step(r, d, a), d, a[w..]);
    }
  }

  lemma LastQuote(r: Reader, d: char)
    requires IsDelimiter(d) && Valid(r) && r.quoted
    ensures Finish(Read(r, d, "\"" + QUOTED_LINE)) != Finish(Read(Read(r, d, "\""), d, QUOTED_LINE))
  {
    var t := "\"" + QUOTED_LINE;
    assert t[2..] == "\n" && "\n"[1..] == "" && QUOTED_LINE[1..] == "\n" && "\""[1..] == "";
    var whole := r.(field := r.field + "\"" + "\n");
    assert Read(r, d, t) == whole by {
      Unfold(r, d, t, 2);
      Unfold(r.(field := r.field + "\""), d, "\n", 1);
    }
    var f := r.field + "\"";
    var parts := Reader("", [], false, true, r.rows + [r.row + [f]]);
    assert Read(Read(r, d, "\""), d, QUOTED_LINE) == parts by {
      Unfold(r, d, "\"", 1);
      Unfold(r.(quoted := false), d, QUOTED_LINE, 1);
      Unfold(r.(quoted := false, field := f), d, "\n", 1);
    }
    assert Finish(whole) == r.rows + [r.row + [f + "\n"]];
    assert Finish(parts) == r.rows + [r.row + [f]];
    var k := |r.rows|;
    assert Finish(whole)[k] == r.row + [f + "\n"] && Finish(parts)[k] == r.row + [f];
    assert Finish(whole)[k][|r.row|] != Finish(parts)[k][|r.row|];
  }

  /**
   * A first chunk may be followed by any second chunk without changing the rows exactly when it
   * does not end on a quote inside a quoted field.
   */
  lemma SafeFirstChunk(d: char, a: string)
    requires IsDelimiter(d)
    ensures (forall b: string :: Rows(d, [a, b]) == Rows(d, [a + b])) <==> !EndsOnQuote(START, d, a)
  {
    hide Read, EndsOnQuote, Rows;
    if EndsOnQuote(START, d, a) {
      OnQuoteDiffers(START, d, a);
      TwoChunks(d, a, QUOTED_LINE);
      OneChunk(d, a + QUOTED_LINE);
    } else {
      forall b: string
        ensures Rows(d, [a, b]) == Rows(d, [a + b])
      {
        NotOnQuoteAligned(START, d, a, b);
        Sync(START, d, a, b);
        TwoChunks(d, a, b);
        OneChunk(d, a + b);
      }
    }
  }

  // ---- Round trip ----

  /** What reading a row list back gives: a row without fields prints like one empty field. */
  function Normalized(rows: seq<seq<string>>): seq<seq<string>> {
    if rows == [] then [] else [if rows[0] == [] then [""] else rows[0]] + Normalized(rows[1..])
  }

  lemma {:induction false} ReadPlain(r: Reader, d: char, v: string, t: string)
    requires !r.quoted && Valid(r) && !NeedsQuotes(v, d)
    ensures Read(r, d, v + t) == Read(r.(field := r.field + v, atFieldStart := r.atFieldStart && v == ""), d, t)
    decreases |v|
  {
    hide Read;
    if v == "" {
      assert v + t == t && r.field + v == r.field;
    } else {
      var u, next := v + t, r.(field := r.field + [v[0]], atFieldStart := false);
      assert u[0] == v[0] && u[1..] == v[1..] + t;
      Unfold(r, d, u, 1);
      assert Step(r, d, u) == next;
      ReadPlain(next, d, v[1..], t);
      assert r.field + [v[0]] + v[1..] == r.field + v;
    }
  }

  lemma {:induction false} ReadQuoted(r: Reader, d: char, v: string, t: string)
    requires r.quoted && t != "" && t[0] != '"'
    ensures Read(r, d, ReplaceAll(v, '"', "\"\"") + ("\"" + t)) == Read(r.(field := r.field + v, quoted := false), d, t)
    decreases |v|
  {
    hide Read;
    var tail := "\"" + t;
    var u := ReplaceAll(v, '"', "\"\"") + tail;
    if v == "" {
      assert u == tail && tail[0] == '"' && tail[1] == t[0] && tail[1..] == t;
      assert r.field + v == r.field;
      Unfold(r, d, u, 1);
    } else {
      var rest := ReplaceAll(v[1..], '"', "\"\"");
      var head := if v[0] == '"' then "\"\"" else [v[0]];
      var next := r.(field := r.field + [v[0]]);
      Assoc(head, rest, tail);
      assert u == head + (rest + tail) && u[0] == v[0] && u[|head|..] == rest + tail;
      assert v[0] == '"' ==> u[1] == '"';
      Unfold(r, d, u, |head|);
      assert Step(r, d, u) == next;
      ReadQuoted(next, d, v[1..], t);
      assert r.field + [v[0]] + v[1..] == r.field + v;
    }
  }

  /** The printed field is read back up to its separator, whatever the value. */
  lemma ReadField(r: Reader, d: char, v: string, t: string)
    requires IsDelimiter(d) && !r.quoted && r.atFieldStart && r.field == "" && t != "" && t[0] != '"'
    ensures Read(r, d, EscapeCsv(v, d) + t) == Read(r.(field := v, atFieldStart := v == ""), d, t)
  {
    hide Read;
    if NeedsQuotes(v, d) {
      var body := ReplaceAll(v, '"', "\"\"");
      var u := "\"" + (body + ("\"" + t));
      assert EscapeCsv(v, d) + t == u;
      assert u[0] == '"' && u[1..] == body + ("\"" + t);
      var open := r.(quoted := true, atFieldStart := false);
      Unfold(r, d, u, 1);
      assert Step(r, d, u) == open;
      ReadQuoted(open, d, v, t);
      assert "" + v == v;
      assert Read(r, d, u) == Read(r.(field := v, atFieldStart := false), d, t);
    } else {
      ReadPlain(r, d, v, t);
      assert "" + v == v;
    }
  }

  /** A reader between two fields. */
  function Between(row: seq<string>, rows: seq<seq<string>>): Reader { Reader("", row, false, true, rows) }

  lemma ReadSeparated(d: char, row: seq<string>, rows: seq<seq<string>>, v: string, c: char, t: string)
    requires IsDelimiter(d) && (c == d || c == '\n')
    ensures Read(Between(row, rows), d, EscapeCsv(v, d) + ([c] + t))
         == Read(if c == d then Between(row + [v], rows) else Between([], rows + [row + [v]]), d, t)
  {
    hide Read, EscapeCsv;
    var u := [c] + t;
    ReadField(Between(row, rows), d, v, u);
    assert u[0] == c && u[1..] == t;
    Unfold(Between(row, rows).(field := v, atFieldStart := v == ""), d, u, 1);
  }

  lemma {:induction false} ReadRow(d: char, done: seq<string>, rows: seq<seq<string>>, row: seq<string>, t: string)
    requires IsDelimiter(d) && row != []
    ensures Read(Between(done, rows), d, PrintRow(row, d) + t) == Read(Between([], rows + [done + row]), d, t)
    decreases |row|
  {
    hide Read, EscapeCsv;
    var v := row[0];
    if |row| == 1 {
      assert row == [v] && row[1..] == [];
      assert EscapeRow(row, d) == [EscapeCsv(v, d)];
      Assoc(EscapeCsv(v, d), "\n", t);
      ReadSeparated(d, done, rows, v, '\n', t);
    } else {
      var rest := PrintRow(row[1..], d);
      assert EscapeRow(row, d)[1..] == EscapeRow(row[1..], d) && |EscapeRow(row[1..], d)| > 0;
      assert PrintRow(row, d) + t == EscapeCsv(v, d) + ([d] + (rest + t));
      ReadSeparated(d, done, rows, v, d, rest + t);
      ReadRow(d, done + [v], rows, row[1..], t);
      assert done + [v] + row[1..] == done + row;
    }
  }

  lemma {:induction false} ReadRows(d: char, done: seq<seq<string>>, rows: seq<seq<string>>)
    requires IsDelimiter(d)
    ensures Read(Between([], done), d, PrintRows(rows, d)) == Between([], done + Normalized(rows))
    decreases rows
  {
    hide Read, PrintRow;
    if rows == [] {
      ReadNothing(Between([], done), d);
      assert done + [] == done;
    } else {
      var row := if rows[0] == [] then [""] else rows[0];
      EmptyRowPrints(d);
      ReadRow(d, [], done, row, PrintRows(rows[1..], d));
      assert [] + row == row;
      ReadRows(d, done + [row], rows[1..]);
      Assoc(done, [row], Normalized(rows[1..]));
    }
  }

  lemma EmptyRowPrints(d: char)
    requires IsDelimiter(d)
    ensures PrintRow([""], d) == PrintRow([], d) == "\n"
  {
    assert EscapeRow([""], d) == [""];
  }

  /** Reading a printed table back, under every aligned chunking. */
  lemma PrintedRows(d: char, rows: seq<seq<string>>, chunks: seq<string>)
    requires IsDelimiter(d)
    requires Concat(chunks) == PrintRows(rows, d) && AlignedChunks(START, d, chunks)
    ensures Rows(d, chunks) == Normalized(rows)
  {
    hide Read, Rows, AlignedChunks;
    AlignedChunkingInvariant(d, chunks);
    OneChunk(d, PrintRows(rows, d));
    assert START == Between([], []);
    ReadRows(d, [], rows);
    assert [] + Normalized(rows) == Normalized(rows);
  }

  lemma {:induction false} NormalizedSame(rows: seq<seq<string>>)
    ensures Normalized(rows) == rows <==> [] !in rows
  {
    if rows != [] {
      NormalizedSame(rows[1..]);
      assert Normalized(rows)[1..] == Normalized(rows[1..]);
      assert Normalized(rows)[0] == rows[0] <==> rows[0] != [];
    }
  }

  /** The CSV round trip: a table comes back unchanged exactly when every row has a field. */
  lemma CsvRoundTrip(d: char, rows: seq<seq<string>>, chunks: seq<string>)
    requires IsDelimiter(d)
    requires Concat(chunks) == PrintRows(rows, d) && AlignedChunks(START, d, chunks)
    ensures Rows(d, chunks) == rows <==> [] !in rows
  {
    hide *;
    PrintedRows(d, rows, chunks);
    NormalizedSame(rows);
  }

  // ---- Files printed by others ----

  /** A field that does not begin with a quote, or its text behind a closing quote, keeps quotes and drops carriage returns. */
  lemma {:induction false} ReadTail(r: Reader, d: char, w: string, t: string)
    requires IsDelimiter(d) && !r.quoted && d !in w && '\n' !in w
    requires r.atFieldStart ==> w != "" && w[0] != '"' && w[0] != '\r'
    ensures Read(r, d, w + t)
         == Read(r.(field := r.field + ReplaceAll(w, '\r', ""), atFieldStart := r.atFieldStart && w == ""), d, t)
    decreases |w|
  {
    hide Read;
    if w == "" {
      assert w + t == t && r.field + "" == r.field;
    } else {
      var u := w + t;
      assert w[0] in w && u[0] == w[0] && u[1..] == w[1..] + t;
      Unfold(r, d, u, 1);
      var next := Step(r, d, u);
      ReadTail(next, d, w[1..], t);
      if w[0] == '\r' {
        assert "" + ReplaceAll(w[1..], '\r', "") == ReplaceAll(w[1..], '\r', "");
      } else {
        Assoc(r.field, [w[0]], ReplaceAll(w[1..], '\r', ""));
      }
    }
  }

  /** Outside quotes a carriage return counts for nothing. */
  lemma {:induction false} CarriageReturnDropped(r: Reader, d: char, t: string)
    requires IsDelimiter(d) && !r.quoted
    ensures Read(r, d, "\r" + t) == Read(r, d, t)
  {
    hide Read;
    assert ("\r" + t)[1..] == t;
    Unfold(r, d, "\r" + t, 1);
  }

  /** A line as it is printed with a carriage return before its line end. */
  function CrlfRow(row: seq<string>, d: char): string { Join(EscapeRow(row, d), [d]) + "\r\n" }

  function CrlfRows(rows: seq<seq<string>>, d: char): string {
    if rows == [] then "" else CrlfRow(rows[0], d) + CrlfRows(rows[1..], d)
  }

  lemma {:induction false} CrlfField(d: char, row: seq<string>, rows: seq<seq<string>>, v: string, t: string)
    requires IsDelimiter(d)
    ensures Read(Between(row, rows), d, EscapeCsv(v, d) + ("\r\n" + t)) == Read(Between([], rows + [row + [v]]), d, t)
  {
    hide Read, EscapeCsv;
    var r := Between(row, rows).(field := v, atFieldStart := v == "");
    ReadField(Between(row, rows), d, v, "\r\n" + t);
    assert "\r\n" + t == "\r" + ("\n" + t);
    CarriageReturnDropped(r, d, "\n" + t);
    assert ("\n" + t)[1..] == t;
    Unfold(r, d, "\n" + t, 1);
  }

  lemma {:induction false} ReadCrlfRow(d: char, done: seq<string>, rows: seq<seq<string>>, row: seq<string>, t: string)
    requires IsDelimiter(d) && row != []
    ensures Read(Between(done, rows), d, CrlfRow(row, d) + t) == Read(Between([], rows + [done + row]), d, t)
    decreases |row|
  {
    hide Read, EscapeCsv;
    var v := row[0];
    if |row| == 1 {
      assert row == [v] && row[1..] == [];
      assert EscapeRow(row, d) == [EscapeCsv(v, d)];
      Assoc(EscapeCsv(v, d), "\r\n", t);
      CrlfField(d, done, rows, v, t);
    } else {
      var rest := CrlfRow(row[1..], d);
      assert EscapeRow(row, d)[1..] == EscapeRow(row[1..], d) && |EscapeRow(row[1..], d)| > 0;
      assert CrlfRow(row, d) + t == EscapeCsv(v, d) + ([d] + (rest + t));
      ReadSeparated(d, done, rows, v, d, rest + t);
      ReadCrlfRow(d, done + [v], rows, row[1..], t);
      assert done + [v] + row[1..] == done + row;
    }
  }

  lemma {:induction false} ReadCrlfRows(d: char, done: seq<seq<string>>, rows: seq<seq<string>>)
    requires IsDelimiter(d) && [] !in rows
    ensures Read(Between([], done), d, CrlfRows(rows, d)) == Between([], done + rows)
    decreases rows
  {
    hide Read, CrlfRow;
    if rows == [] {
      ReadNothing(Between([], done), d);
      assert done + [] == done;
    } else {
      ReadCrlfRow(d, [], done, rows[0], CrlfRows(rows[1..], d));
      assert [] + rows[0] == rows[0];
      ReadCrlfRows(d, done + [rows[0]], rows[1..]);
      assert done + [rows[0]] + rows[1..] == done + rows;
    }
  }

  /** Line ends of two characters, and a last line without one, are read like the printed ones. */
  lemma {:induction false} ForeignLinesRead(d: char, rows: seq<seq<string>>, last: seq<string>)
    requires IsDelimiter(d) && [] !in rows && last != [] && last != [""]
    ensures Rows(d, [CrlfRows(rows, d)]) == rows
    ensures Rows(d, [CrlfRows(rows, d) + Join(EscapeRow(last, d), [d])]) == rows + [last]
  {
    hide Read;
    var t, u := CrlfRows(rows, d), Join(EscapeRow(last, d), [d]);
    OneChunk(d, t);
    OneChunk(d, t + u);
    ReadCrlfRows(d, [], rows);
    assert START == Between([], []) && [] + rows == rows;
    CrlfThen(d, [], rows, u);
    ReadLast(d, [], rows, last);
    assert [] + last == last;
  }

  lemma {:induction false} CrlfThen(d: char, done: seq<seq<string>>, rows: seq<seq<string>>, t: string)
    requires IsDelimiter(d) && [] !in rows
    ensures Read(Between([], done), d, CrlfRows(rows, d) + t) == Read(Between([], done + rows), d, t)
    decreases rows
  {
    hide Read, CrlfRow;
    if rows == [] {
      assert CrlfRows(rows, d) + t == t && done + [] == done;
    } else {
      Assoc(CrlfRow(rows[0], d), CrlfRows(rows[1..], d), t);
      ReadCrlfRow(d, [], done, rows[0], CrlfRows(rows[1..], d) + t);
      assert [] + rows[0] == rows[0];
      CrlfThen(d, done + [rows[0]], rows[1..], t);
      assert done + [rows[0]] + rows[1..] == done + rows;
    }
  }

  lemma {:induction false} ReadLast(d: char, done: seq<string>, rows: seq<seq<string>>, row: seq<string>)
    requires IsDelimiter(d) && row != [] && (done != [] || row != [""])
    ensures Finish(Read(Between(done, rows), d, Join(EscapeRow(row, d), [d]))) == rows + [done + row]
    decreases |row|
  {
    hide Read, EscapeCsv;
    var v := row[0];
    if |row| == 1 {
      assert row == [v] && row[1..] == [] && EscapeRow(row, d) == [EscapeCsv(v, d)];
      LastField(d, done, rows, v);
    } else {
      var rest := Join(EscapeRow(row[1..], d), [d]);
      assert EscapeRow(row, d)[1..] == EscapeRow(row[1..], d) && |EscapeRow(row[1..], d)| > 0;
      assert Join(EscapeRow(row, d), [d]) == EscapeCsv(v, d) + ([d] + rest);
      ReadSeparated(d, done, rows, v, d, rest);
      ReadLast(d, done + [v], rows, row[1..]);
      assert done + [v] + row[1..] == done + row;
    }
  }

  lemma {:induction false} LastField(d: char, done: seq<string>, rows: seq<seq<string>>, v: string)
    requires IsDelimiter(d)
    ensures var r := Read(Between(done, rows), d, EscapeCsv(v, d)); r.field == v && r.row == done && r.rows == rows
  {
    hide Read;
    var r := Between(done, rows);
    if NeedsQuotes(v, d) {
      var body := ReplaceAll(v, '"', "\"\"") + "\"";
      assert EscapeCsv(v, d) == "\"" + body && ("\"" + body)[1..] == body;
      Unfold(r, d, "\"" + body, 1);
      QuotedLast(r.(quoted := true, atFieldStart := false), d, v);
    } else {
      assert v + "" == v;
      ReadPlain(r, d, v, "");
      ReadNothing(r.(field := r.field + v, atFieldStart := r.atFieldStart && v == ""), d);
    }
  }

  lemma {:induction false} QuotedLast(r: Reader, d: char, v: string)
    requires r.quoted
    ensures Read(r, d, ReplaceAll(v, '"', "\"\"") + "\"") == r.(field := r.field + v, quoted := false)
    decreases |v|
  {
    hide Read;
    var u := ReplaceAll(v, '"', "\"\"") + "\"";
    if v == "" {
      assert u == "\"" && u[1..] == "" && r.field + v == r.field;
      Unfold(r, d, u, 1);
      ReadNothing(r.(quoted := false), d);
    } else {
      var rest := ReplaceAll(v[1..], '"', "\"\"") + "\"";
      if v[0] == '"' {
        assert u[0] == '"' && u[1] == '"' && u[2..] == rest;
        Unfold(r, d, u, 2);
        QuotedLast(r.(field := r.field + "\""), d, v[1..]);
        assert r.field + "\"" + v[1..] == r.field + v;
      } else {
        assert u[0] == v[0] && u[1..] == rest;
        Unfold(r, d, u, 1);
        QuotedLast(r.(field := r.field + [v[0]]), d, v[1..]);
        assert r.field + [v[0]] + v[1..] == r.field + v;
      }
    }
  }
}
