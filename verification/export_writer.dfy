/** `writeRows`: the loop that prints an export. */
module ExportWriter {
  import opened Text
  import opened SqlLexer
  import opened SqlDump
  import Csv = CsvCodec

  type Row = map<string, Value>

  /** How the host prints the object of a row in JSON, given its columns and cells. */
  type Stringify = (seq<string>, seq<Value>) -> string

  datatype Format = CsvFormat(delimiter: char, header: bool) | SqlFormat(scope: Scope) | JsonFormat(stringify: Stringify)
  datatype Scope = Data | Structure | DataAndStructure

  /** The cells of a row in column order; a missing cell is undefined and prints like null. */
  function Cells(columns: seq<string>, row: Row): seq<Value> {
    seq(|columns|, i requires 0 <= i < |columns| => if columns[i] in row then row[columns[i]] else Null)
  }

  function AllCells(columns: seq<string>, rows: seq<Row>): seq<seq<Value>> {
    seq(|rows|, i requires 0 <= i < |rows| => Cells(columns, rows[i]))
  }

  function CsvValue(v: Value): string {
    match v
    case Null => ""
    case Bool(b) => if b then "true" else "false"
    case Number(t) => t
    case Str(s) => s
  }

  function CsvCells(cells: seq<Value>): seq<string> {
    seq(|cells|, i requires 0 <= i < |cells| => CsvValue(cells[i]))
  }

  /** The table a CSV export stands for: its header line, if any, and one line a row. */
  function CsvTable(columns: seq<string>, rows: seq<Row>, header: bool): seq<seq<string>> {
    (if header then [columns] else [])
    + seq(|rows|, i requires 0 <= i < |rows| => CsvCells(Cells(columns, rows[i])))
  }

  lemma {:induction false} PrintRowsAppend(xs: seq<seq<string>>, ys: seq<seq<string>>, d: char)
    ensures Csv.PrintRows(xs + ys, d) == Csv.PrintRows(xs, d) + Csv.PrintRows(ys, d)
  {
    hide Csv.PrintRow;
    if xs == [] {
      assert xs + ys == ys && Csv.PrintRows(xs, d) == "";
    } else {
      assert (xs + ys)[0] == xs[0] && (xs + ys)[1..] == xs[1..] + ys;
      PrintRowsAppend(xs[1..], ys, d);
      Assoc(Csv.PrintRow(xs[0], d), Csv.PrintRows(xs[1..], d), Csv.PrintRows(ys, d));
    }
  }

  lemma PrintOneRow(row: seq<string>, d: char)
    ensures Csv.PrintRows([row], d) == Csv.PrintRow(row, d)
  {
    hide Csv.PrintRow;
    assert [row][1..] == [] && Csv.PrintRows([], d) == "";
  }

  lemma {:induction false} DumpAppend(xs: seq<string>, s: string)
    ensures Dump(xs + [s]) == Dump(xs) + (s + ";\n")
  {
    if xs == [] {
      assert xs + [s] == [s] && [s][1..] == [];
      assert Dump([s]) == s + ";\n" + "";
    } else {
      assert (xs + [s])[0] == xs[0] && (xs + [s])[1..] == xs[1..] + [s];
      DumpAppend(xs[1..], s);
      Assoc(xs[0] + ";\n", Dump(xs[1..]), s + ";\n");
    }
  }

  lemma {:induction false} InsertsAppend(e: Engine, target: Target, columns: seq<string>, rows: seq<seq<Value>>, row: seq<Value>)
    ensures Inserts(e, target, columns, rows + [row])
         == Inserts(e, target, columns, rows) + [Insert(e, target, columns, row)]
  {
    hide Insert;
    if rows == [] {
      assert rows + [row] == [row] && [row][1..] == [];
    } else {
      assert (rows + [row])[0] == rows[0] && (rows + [row])[1..] == rows[1..] + [row];
      InsertsAppend(e, target, columns, rows[1..], row);
    }
  }

  function Objects(columns: seq<string>, rows: seq<Row>, stringify: Stringify): seq<string> {
    seq(|rows|, i requires 0 <= i < |rows| => stringify(columns, Cells(columns, rows[i])))
  }

  lemma {:induction false} JoinAppend(xs: seq<string>, x: string, separator: string)
    ensures Join(xs + [x], separator) == if xs == [] then x else Join(xs, separator) + (separator + x)
  {
    if |xs| == 0 {
      assert xs + [x] == [x];
    } else {
      assert (xs + [x])[0] == xs[0] && (xs + [x])[1..] == xs[1..] + [x];
      JoinAppend(xs[1..], x, separator);
      if |xs| == 1 {
        assert xs[1..] == [];
        Assoc(xs[0], separator, x);
      } else {
        Assoc(xs[0] + separator, Join(xs[1..], separator), separator + x);
      }
    }
  }

  /** The text of a whole export. */
  function Exported(e: Engine, columns: seq<string>, rows: seq<Row>, format: Format, target: Target, ddl: string): string {
    Begun(e, columns, rows, format, target, ddl) + Closing(format)
  }

  function Closing(format: Format): string { if format.JsonFormat? then "]\n" else "" }

  /** An export up to its closing. */
  function Begun(e: Engine, columns: seq<string>, rows: seq<Row>, format: Format, target: Target, ddl: string): string {
    match format
    case JsonFormat(stringify) => "[" + Join(Objects(columns, rows, stringify), ",")
    case CsvFormat(d, header) => Csv.PrintRows(CsvTable(columns, rows, header), d)
    case SqlFormat(scope) =>
      (if scope != Data && ddl != "" then ddl + "\n" else "")
      + (if scope != Structure then Dump(Inserts(e, target, columns, AllCells(columns, rows))) else "")
  }

  /** What the loop appends for one row, after `count` others. */
  function Line(e: Engine, columns: seq<string>, count: nat, row: Row, format: Format, target: Target): string {
    match format
    case CsvFormat(d, _) => Csv.PrintRow(CsvCells(Cells(columns, row)), d)
    case SqlFormat(scope) => if scope != Structure then Insert(e, target, columns, Cells(columns, row)) + ";\n" else ""
    case JsonFormat(stringify) => (if count == 0 then "" else ",") + stringify(columns, Cells(columns, row))
  }

  lemma BegunNext(e: Engine, columns: seq<string>, rows: seq<Row>, row: Row, format: Format, target: Target, ddl: string)
    ensures Begun(e, columns, rows + [row], format, target, ddl)
         == Begun(e, columns, rows, format, target, ddl) + Line(e, columns, |rows|, row, format, target)
  {
    hide Insert, Cells, CsvCells, Csv.PrintRow, Csv.PrintRows, Inserts, Dump, Join;
    match format
    case CsvFormat(d, header) =>
      var cells := CsvCells(Cells(columns, row));
      assert CsvTable(columns, rows + [row], header) == CsvTable(columns, rows, header) + [cells];
      PrintRowsAppend(CsvTable(columns, rows, header), [cells], d);
      PrintOneRow(cells, d);
    case SqlFormat(scope) =>
      var cells := Cells(columns, row);
      var all := AllCells(columns, rows);
      assert AllCells(columns, rows + [row]) == all + [cells];
      InsertsAppend(e, target, columns, all, cells);
      DumpAppend(Inserts(e, target, columns, all), Insert(e, target, columns, cells));
      var head := if scope != Data && ddl != "" then ddl + "\n" else "";
      Assoc(head, Dump(Inserts(e, target, columns, all)), Insert(e, target, columns, cells) + ";\n");
      assert head + "" + "" == head + "";
    case JsonFormat(stringify) =>
      ObjectsNext(columns, rows, row, stringify);
  }

  lemma ObjectsNext(columns: seq<string>, rows: seq<Row>, row: Row, stringify: Stringify)
    ensures "[" + Join(Objects(columns, rows + [row], stringify), ",")
         == "[" + Join(Objects(columns, rows, stringify), ",")
            + ((if |rows| == 0 then "" else ",") + stringify(columns, Cells(columns, row)))
  {
    var objects, last := Objects(columns, rows, stringify), stringify(columns, Cells(columns, row));
    hide Cells;
    assert Objects(columns, rows + [row], stringify) == objects + [last];
    JoinAppend(objects, last, ",");
    if |rows| == 0 {
      assert Join(objects, ",") == "" && "[" + "" + ("" + last) == "[" + last;
    } else {
      Assoc("[", Join(objects, ","), "," + last);
    }
  }

  lemma BegunEmpty(e: Engine, columns: seq<string>, format: Format, target: Target, ddl: string)
    ensures Begun(e, columns, [], format, target, ddl)
         == match format
            case CsvFormat(d, header) => if header then Csv.PrintRow(columns, d) else ""
            case SqlFormat(scope) => if scope != Data && ddl != "" then ddl + "\n" else ""
            case JsonFormat(_) => "["
  {
    hide Csv.PrintRow;
    match format
    case CsvFormat(d, header) =>
      assert CsvTable(columns, [], header) == if header then [columns] else [];
      PrintOneRow(columns, d);
    case SqlFormat(_) =>
      assert Dump(Inserts(e, target, columns, AllCells(columns, []))) == "";
    case JsonFormat(stringify) =>
      assert Objects(columns, [], stringify) == [] && "[" + "" == "[";
  }

  method WriteRows(e: Engine, columns: seq<string>, rows: seq<Row>, format: Format, target: Target, ddl: string)
    returns (file: string, count: nat)
    ensures file == Exported(e, columns, rows, format, target, ddl)
    ensures count == |rows|
  {
    hide Begun, Insert, Csv.PrintRow, Cells;
    file, count := "", 0;
    match format {
      case CsvFormat(delimiter, header) =>
        if header {
          file := file + Csv.PrintRow(columns, delimiter);
        }
      case JsonFormat(_) =>
        file := file + "[";
      case SqlFormat(scope) =>
        if scope != Data && ddl != "" {
          file := file + (ddl + "\n");
        }
    }
    BegunEmpty(e, columns, format, target, ddl);
    assert rows[..0] == [];
    for i := 0 to |rows|
      invariant file == Begun(e, columns, rows[..i], format, target, ddl) && count == i
    {
      var values := Cells(columns, rows[i]);
      BegunNext(e, columns, rows[..i], rows[i], format, target, ddl);
      assert rows[..i] + [rows[i]] == rows[..i + 1];
      match format {
        case CsvFormat(delimiter, _) =>
          file := file + Csv.PrintRow(CsvCells(values), delimiter);
        case JsonFormat(stringify) =>
          file := file + ((if count == 0 then "" else ",") + stringify(columns, values));
        case SqlFormat(scope) =>
          if scope != Structure {
            file := file + (Insert(e, target, columns, values) + ";\n");
          } else {
            assert file + "" == file;
          }
      }
      count := count + 1;
    }
    assert rows[..|rows|] == rows;
    if format.JsonFormat? {
      file := file + "]\n";
    } else {
      assert file + "" == file;
    }
  }

  /** A CSV export with at least one column is imported as the very table it was printed from. */
  lemma CsvExportRoundTrip(e: Engine, columns: seq<string>, rows: seq<Row>, d: char, header: bool, target: Target,
                           chunks: seq<string>)
    requires Csv.IsDelimiter(d) && columns != []
    requires Concat(chunks) == Exported(e, columns, rows, CsvFormat(d, header), target, "")
    requires Csv.AlignedChunks(Csv.START, d, chunks)
    ensures Csv.Rows(d, chunks) == CsvTable(columns, rows, header)
  {
    hide Csv.Rows, Csv.PrintRows, Csv.AlignedChunks;
    var table := CsvTable(columns, rows, header);
    assert Csv.PrintRows(table, d) + "" == Csv.PrintRows(table, d);
    assert forall i | 0 <= i < |table| :: table[i] != [];
    Csv.CsvRoundTrip(d, table, chunks);
  }
}
