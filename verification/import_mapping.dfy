/** Which field of an uploaded record an import inserts into which column. */
module ImportMapping {
  import opened Text
  import opened CsvImport

  // ---- Decimal positions ----

  function DigitOf(c: char): nat { if '0' <= c <= '9' then c as int - '0' as int else 0 }

  /** The number a text of decimal digits stands for. */
  function NumberOf(digits: string): nat {
    if digits == "" then 0 else 10 * NumberOf(digits[..|digits| - 1]) + DigitOf(digits[|digits| - 1])
  }

  /** The numeral of `n`, without leading zeros. */
  ghost predicate IsNumeral(text: string, n: nat) {
    && text != "" && (forall c | c in text :: '0' <= c <= '9') && NumberOf(text) == n
    && (|text| > 1 ==> text[0] != '0')
  }

  lemma {:induction false} NumberAppend(front: string, last: char)
    ensures NumberOf(front + [last]) == 10 * NumberOf(front) + DigitOf(last)
  {
    assert (front + [last])[..|front|] == front;
  }

  lemma {:induction false} DecimalIsNumeral(n: nat)
    ensures IsNumeral(Decimal(n), n)
    decreases n
  {
    var last := ('0' as int + n % 10) as char;
    assert '0' <= last <= '9' && DigitOf(last) == n % 10;
    if n < 10 {
      assert Decimal(n) == [last] == "" + [last];
      NumberAppend("", last);
    } else {
      DecimalIsNumeral(n / 10);
      var front := Decimal(n / 10);
      assert Decimal(n) == front + [last];
      NumberAppend(front, last);
      if |front| == 1 {
        assert front == "" + [front[0]];
        NumberAppend("", front[0]);
      }
    }
  }

  // ---- The names of the fields ----

  /** With a header its names; without one every field is named by its position. */
  ghost predicate AreHeaders(first: seq<string>, header: bool, headers: seq<string>) {
    && |headers| == |first|
    && (header ==> headers == first)
    && (!header ==> forall i | 0 <= i < |headers| :: IsNumeral(headers[i], i))
  }

  /** The first field with this name. */
  ghost predicate FirstField(headers: seq<string>, name: string, j: nat) {
    j < |headers| && headers[j] == name && forall i | 0 <= i < j :: headers[i] != name
  }

  /** What the mapping asks for: all fields, when it is empty. */
  ghost predicate AreSources(headers: seq<string>, mapping: seq<string>, sources: seq<string>) {
    sources == if mapping == [] then headers else mapping
  }

  lemma {:induction false} IndexIsFirst(headers: seq<string>, name: string, j: nat)
    ensures IndexOf(headers, name) == Some(j) <==> FirstField(headers, name, j)
  {
    var found := IndexOf(headers, name);
    if found.Some? {
      assert forall i | 0 <= i < found.value :: headers[..found.value][i] == headers[i];
    }
  }

  /** The first source that names no field is reported; otherwise every source is resolved to its first field. */
  lemma {:induction false} ResolveExactly(headers: seq<string>, sources: seq<string>)
    ensures match Resolve(headers, sources)
      case Missing(source) =>
        exists i :: 0 <= i < |sources| && sources[i] == source && source !in headers && forall k | 0 <= k < i :: sources[k] in headers
      case Indexes(indexes) =>
        |indexes| == |sources| && forall i | 0 <= i < |sources| :: FirstField(headers, sources[i], indexes[i])
  {
    if sources != [] {
      ResolveExactly(headers, sources[1..]);
      assert forall k | 1 <= k < |sources| :: sources[1..][k - 1] == sources[k];
      var found := IndexOf(headers, sources[0]);
      if found.Some? {
        IndexIsFirst(headers, sources[0], found.value);
        match Resolve(headers, sources[1..])
        case Missing(source) =>
          var i :| 0 <= i < |sources[1..]| && sources[1..][i] == source && source !in headers
                   && forall k | 0 <= k < i :: sources[1..][k] in headers;
          assert sources[i + 1] == source;
        case Indexes(rest) =>
      } else {
        assert sources[0] !in headers;
      }
    }
  }

  // ---- The rows ----

  /** Under each source stands the record's own field, empty when the record is too short for it. */
  ghost predicate TakesFields(headers: seq<string>, sources: seq<string>, record: seq<string>, values: seq<string>) {
    && |values| == |sources|
    && forall i, j: nat | 0 <= i < |sources| && FirstField(headers, sources[i], j) ::
         values[i] == if j < |record| then record[j] else ""
  }

  /** The row is made of the fields asked for. */
  ghost predicate IsRow<R(!new)>(headers: seq<string>, sources: seq<string>, record: seq<string>, convert: seq<string> -> R, row: R) {
    exists values :: TakesFields(headers, sources, record, values) && row == convert(values)
  }

  /** The data rows of the upload: the records after the header line, each with the fields asked for. */
  ghost predicate AreRows<R(!new)>(records: seq<seq<string>>, header: bool, headers: seq<string>, sources: seq<string>,
                                   convert: seq<string> -> R, rows: seq<Numbered<R>>) {
    var first := if header then 1 else 0;
    && |rows| == |records| - first
    && forall k | 0 <= k < |rows| :: IsRow(headers, sources, records[first + k], convert, rows[k].row)
  }

  lemma {:induction false} MappedTakes(headers: seq<string>, sources: seq<string>, indexes: seq<nat>, record: seq<string>)
    requires |indexes| == |sources| && forall i | 0 <= i < |sources| :: FirstField(headers, sources[i], indexes[i])
    ensures TakesFields(headers, sources, record, Mapped(indexes, record))
  {
    forall i, j: nat | 0 <= i < |sources| && FirstField(headers, sources[i], j)
      ensures Mapped(indexes, record)[i] == if j < |record| then record[j] else ""
    {
      assert FirstField(headers, sources[i], indexes[i]);
    }
  }

  lemma {:induction false} MappedIsRow<R(!new)>(headers: seq<string>, sources: seq<string>, indexes: seq<nat>, record: seq<string>,
                                                convert: seq<string> -> R)
    requires |indexes| == |sources| && forall i | 0 <= i < |sources| :: FirstField(headers, sources[i], indexes[i])
    ensures IsRow(headers, sources, record, convert, convert(Mapped(indexes, record)))
  {
    hide Mapped, TakesFields;
    MappedTakes(headers, sources, indexes, record);
    var values := Mapped(indexes, record);
    assert TakesFields(headers, sources, record, values);
  }

  lemma {:induction false} HeadersAre(first: seq<string>, header: bool)
    ensures AreHeaders(first, header, Headers(first, header))
  {
    if !header {
      var headers := Headers(first, header);
      forall i | 0 <= i < |headers|
        ensures IsNumeral(headers[i], i)
      {
        DecimalIsNumeral(i);
        assert headers[i] == Decimal(i);
      }
      assert AreHeaders(first, header, headers);
    } else {
      assert Headers(first, header) == first;
    }
  }

  lemma {:induction false} RowsAre<R(!new)>(records: seq<seq<string>>, header: bool, headers: seq<string>, sources: seq<string>,
                                            indexes: seq<nat>, convert: seq<string> -> R)
    requires records != [] && Resolve(headers, sources) == Indexes(indexes)
    ensures AreRows(records, header, headers, sources, convert, DataRows(records, if header then 1 else 0, header, indexes, convert))
  {
    ResolveExactly(headers, sources);
    hide Resolve, RowNumber, TakesFields, Mapped, IsRow;
    var first := if header then 1 else 0;
    var rows := DataRows(records, first, header, indexes, convert);
    forall k | 0 <= k < |rows|
      ensures IsRow(headers, sources, records[first + k], convert, rows[k].row)
    {
      MappedIsRow(headers, sources, indexes, records[first + k], convert);
    }
  }

  /** How the import of some rows ends. */
  ghost function Ending<S, R>(server: Server<S, R>, state: S, rows: seq<Numbered<R>>, batchSize: nat, truncateFirst: bool): (Report, S)
    requires batchSize >= 1
  {
    Concluded(server, state, Batched(server, Progress(Opened(server, state, truncateFirst), 0, 0, [], false), rows, batchSize))
  }

  /** Some source names no field. */
  ghost predicate SourceMissing(headers: seq<string>, sources: seq<string>) { exists s :: s in sources && s !in headers }

  /** The first source that names no field. */
  ghost predicate FirstMissing(headers: seq<string>, sources: seq<string>, source: string) {
    exists i :: 0 <= i < |sources| && sources[i] == source && source !in headers && forall k | 0 <= k < i :: sources[k] in headers
  }

  /**
   * An import of a non-empty upload ends with a missing column, the first source that names no field, if
   * and only if there is one, and changes nothing then. Otherwise it inserts, for every data record in
   * order, the record's own field for every source.
   */
  lemma {:induction false} ImportTakesFields<S(!new), R(!new)>(server: Server<S, R>, state: S, records: seq<seq<string>>, header: bool,
      mapping: seq<string>, batchSize: nat, convert: seq<string> -> R, truncateFirst: bool)
    returns (headers: seq<string>, sources: seq<string>, rows: seq<Numbered<R>>)
    requires records != [] && batchSize >= 1
    ensures AreHeaders(records[0], header, headers) && AreSources(headers, mapping, sources)
    ensures var (report, next) := Outcome(server, state, records, header, mapping, batchSize, convert, truncateFirst);
      if SourceMissing(headers, sources) then
        exists source :: FirstMissing(headers, sources, source)
                         && next == state && report == Report(Some(ColumnNotFound(source)), 0, 0, [])
      else
        && (report.error == None || report.error == Some(TooManyFailures))
        && AreRows(records, header, headers, sources, convert, rows)
        && (report, next) == Ending(server, state, rows, batchSize, truncateFirst)
  {
    headers := Headers(records[0], header);
    sources := Sources(headers, mapping);
    rows := [];
    HeadersAre(records[0], header);
    ResolveExactly(headers, sources);
    var resolved := Resolve(headers, sources);
    hide Resolve, Headers, Batched, AreHeaders, AreRows, DataRows;
    match resolved
    case Missing(source) =>
      assert FirstMissing(headers, sources, source);
      assert source in sources && source !in headers;
    case Indexes(indexes) =>
      RowsAre(records, header, headers, sources, indexes, convert);
      rows := DataRows(records, if header then 1 else 0, header, indexes, convert);
      assert !SourceMissing(headers, sources) by {
        assert forall i | 0 <= i < |sources| :: sources[i] in headers;
      }
  }
}
