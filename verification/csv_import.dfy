/**
 * The CSV import job: batches with a row-by-row fallback, against inserting the rows one at a time.
 */
module CsvImport {
  import opened Text

  const ROW_ERROR_THRESHOLD := 100

  /** Whether one row fits a given state of the session, and what it becomes. */
  datatype Fit<+S> = Fits(state: S) | Refused(reason: string)

  /** The answer to one statement, with the state it leaves either way. */
  datatype Verdict<+S> = Accepted(state: S) | Rejected(reason: string, state: S)

  /**
   * A database session: which rows it takes, what a refused statement leaves behind, and what the
   * statements around the rows do. A commit and a rollback are given the state before `begin`.
   */
  datatype Server<!S, !R> = Server(
    accept: (S, R) -> Fit<S>,
    refuse: S -> S,
    begin: S -> S,
    truncate: S -> S,
    commit: (S, S) -> S,
    rollback: (S, S) -> S)

  datatype Numbered<+R> = Numbered(number: nat, row: R)
  datatype Failure = Failure(number: nat, reason: string)

  /** The session and the summary so far; `stopped` once the threshold is reached. */
  datatype Progress<+S> = Progress(state: S, succeeded: nat, failed: nat, failures: seq<Failure>, stopped: bool)

  /** A multi-row insert is one statement, accepted when its rows fit one after the other. */
  function Fitting<S, R>(server: Server<S, R>, s: S, rows: seq<R>): Fit<S> {
    if rows == [] then Fits(s)
    else match server.accept(s, rows[0])
      case Fits(next) => Fitting(server, next, rows[1..])
      case Refused(reason) => Refused(reason)
  }

  function Execute<S, R>(server: Server<S, R>, s: S, rows: seq<R>): Verdict<S> {
    match Fitting(server, s, rows)
    case Fits(next) => Accepted(next)
    case Refused(reason) => Rejected(reason, server.refuse(s))
  }

  /** One row on its own. */
  function InsertRow<S, R>(server: Server<S, R>, p: Progress<S>, r: Numbered<R>): Progress<S> {
    match Execute(server, p.state, [r.row])
    case Accepted(s) => p.(state := s, succeeded := p.succeeded + 1)
    case Rejected(reason, s) =>
      Progress(s, p.succeeded, p.failed + 1, p.failures + [Failure(r.number, reason)], p.failed + 1 >= ROW_ERROR_THRESHOLD)
  }

  /** The plain import: row by row, up to the threshold. */
  function RowByRow<S, R>(server: Server<S, R>, p: Progress<S>, rows: seq<Numbered<R>>): Progress<S>
    decreases |rows|
  {
    if rows == [] || p.stopped then p else RowByRow(server, InsertRow(server, p, rows[0]), rows[1..])
  }

  function RowsOf<R>(rows: seq<Numbered<R>>): seq<R> {
    seq(|rows|, i requires 0 <= i < |rows| => rows[i].row)
  }

  /** One batch, or its rows one at a time after the batch was refused. */
  function FlushBatch<S, R>(server: Server<S, R>, p: Progress<S>, batch: seq<Numbered<R>>): Progress<S> {
    if batch == [] then p
    else match Execute(server, p.state, RowsOf(batch))
      case Accepted(s) => p.(state := s, succeeded := p.succeeded + |batch|)
      case Rejected(_, s) => RowByRow(server, p.(state := s), batch)
  }

  /** Batch after batch, up to the threshold. */
  function Batched<S, R>(server: Server<S, R>, p: Progress<S>, rows: seq<Numbered<R>>, size: nat): Progress<S>
    requires size >= 1
    decreases |rows|
  {
    if rows == [] || p.stopped then p
    else if |rows| <= size then FlushBatch(server, p, rows)
    else Batched(server, FlushBatch(server, p, rows[..size]), rows[size..], size)
  }

  /** The session behind the import port. */
  class Database<S, R> {
    const server: Server<S, R>
    var state: S

    constructor (server: Server<S, R>, state: S)
      ensures this.server == server && this.state == state
    {
      this.server, this.state := server, state;
    }

    /** Atomic: of a refused batch no row stays. */
    method InsertBatch(rows: seq<R>) returns (verdict: Verdict<S>)
      modifies this
      ensures verdict == Execute(server, old(state), rows) && state == verdict.state
    {
      verdict := Execute(server, state, rows);
      state := verdict.state;
    }
  }

  /** The summary of a running import. */
  class Summary {
    var succeeded: nat
    var failed: nat
    var failures: seq<Failure>

    constructor ()
      ensures succeeded == 0 && failed == 0 && failures == []
    {
      succeeded, failed, failures := 0, 0, [];
    }

    ghost function With<S>(state: S): Progress<S>
      reads this
    {
      Progress(state, succeeded, failed, failures, failed >= ROW_ERROR_THRESHOLD)
    }
  }

  /** The rows of a refused batch, one at a time; false at the threshold. */
  method RetryRows<S, R>(db: Database<S, R>, summary: Summary, batch: seq<Numbered<R>>) returns (running: bool)
    requires summary.failed == |summary.failures| < ROW_ERROR_THRESHOLD
    modifies db, summary
    ensures summary.With(db.state) == RowByRow(db.server, old(summary.With(db.state)), batch)
    ensures summary.failed == |summary.failures| <= ROW_ERROR_THRESHOLD
    ensures running <==> summary.failed < ROW_ERROR_THRESHOLD
  {
    hide Execute;
    assert batch[0..] == batch;
    for i := 0 to |batch|
      invariant summary.failed == |summary.failures| < ROW_ERROR_THRESHOLD
      invariant RowByRow(db.server, summary.With(db.state), batch[i..])
             == RowByRow(db.server, old(summary.With(db.state)), batch)
    {
      assert batch[i..][1..] == batch[i + 1..];
      var verdict := db.InsertBatch([batch[i].row]);
      match verdict {
        case Accepted(_) => summary.succeeded := summary.succeeded + 1;
        case Rejected(reason, _) =>
          summary.failed := summary.failed + 1;
          if |summary.failures| < ROW_ERROR_THRESHOLD {
            summary.failures := summary.failures + [Failure(batch[i].number, reason)];
          }
          if summary.failed >= ROW_ERROR_THRESHOLD {
            return false;
          }
      }
    }
    return true;
  }

  /** Inserts a batch, or its rows one at a time when the batch is refused; false at the threshold. */
  method Flush<S, R>(db: Database<S, R>, summary: Summary, batch: seq<Numbered<R>>) returns (running: bool)
    requires summary.failed == |summary.failures| < ROW_ERROR_THRESHOLD
    modifies db, summary
    ensures summary.With(db.state) == FlushBatch(db.server, old(summary.With(db.state)), batch)
    ensures summary.failed == |summary.failures| <= ROW_ERROR_THRESHOLD
    ensures running <==> summary.failed < ROW_ERROR_THRESHOLD
  {
    hide Execute, RowByRow;
    if |batch| == 0 {
      return true;
    }
    var verdict := db.InsertBatch(RowsOf(batch));
    if verdict.Accepted? {
      summary.succeeded := summary.succeeded + |batch|;
      return true;
    }
    running := RetryRows(db, summary, batch);
  }

  // ---- From records to rows ----

  datatype Error = NoRows | ColumnNotFound(source: string) | TooManyFailures

  /** Counts and failed rows are reported on success and on failure alike. */
  datatype Report = Report(error: Option<Error>, succeeded: nat, failed: nat, failures: seq<Failure>)

  /** `String(n)`. */
  function Decimal(n: nat): string {
    (if n < 10 then "" else Decimal(n / 10)) + [('0' as int + n % 10) as char]
  }

  /** The header line, or the positions when there is none. */
  function Headers(first: seq<string>, header: bool): seq<string> {
    if header then first else seq(|first|, i requires 0 <= i < |first| => Decimal(i))
  }

  /** `indexOf`. */
  function IndexOf(names: seq<string>, name: string): (r: Option<nat>)
    ensures r.Some? ==> r.value < |names| && names[r.value] == name && name !in names[..r.value]
    ensures r.None? ==> name !in names
  {
    if names == [] then None
    else if names[0] == name then Some(0)
    else
      assert names == [names[0]] + names[1..];
      match IndexOf(names[1..], name)
      case None => None
      case Some(i) =>
        assert names[..i + 1] == [names[0]] + names[1..][..i];
        Some(i + 1)
  }

  /** The column of every mapped source, or the first source that is missing. */
  datatype Resolved = Indexes(indexes: seq<nat>) | Missing(source: string)

  function Resolve(headers: seq<string>, sources: seq<string>): Resolved {
    if sources == [] then Indexes([])
    else match IndexOf(headers, sources[0])
      case None => Missing(sources[0])
      case Some(i) =>
        match Resolve(headers, sources[1..])
        case Missing(s) => Missing(s)
        case Indexes(rest) => Indexes([i] + rest)
  }

  function Sources(headers: seq<string>, mapping: seq<string>): seq<string> {
    if mapping != [] then mapping else headers
  }

  /** The mapped values of one record; a short record is padded with empty text. */
  function Mapped(indexes: seq<nat>, record: seq<string>): seq<string> {
    seq(|indexes|, i requires 0 <= i < |indexes| => if indexes[i] < |record| then record[indexes[i]] else "")
  }

  /** The number the import gives to the `k`-th record of the upload. */
  function RowNumber(k: nat, header: bool): nat {
    if header then k + 1 else if k == 0 then 1 else k
  }

  /** The rows to insert, from the `k`-th record on. */
  function DataRows<R>(records: seq<seq<string>>, k: nat, header: bool, indexes: seq<nat>, convert: seq<string> -> R): seq<Numbered<R>>
    requires k <= |records|
  {
    seq(|records| - k, i requires 0 <= i < |records| - k =>
      Numbered(RowNumber(k + i, header), convert(Mapped(indexes, records[k + i]))))
  }

  lemma DataRowsFirst<R>(records: seq<seq<string>>, k: nat, header: bool, indexes: seq<nat>, convert: seq<string> -> R)
    requires k < |records|
    ensures DataRows(records, k, header, indexes, convert)
         == [Numbered(RowNumber(k, header), convert(Mapped(indexes, records[k])))]
            + DataRows(records, k + 1, header, indexes, convert)
  {}

  /** How an import of `rows` ends: the report and the state of the database. */
  ghost function Concluded<S, R>(server: Server<S, R>, before: S, p: Progress<S>): (Report, S) {
    if p.stopped then (Report(Some(TooManyFailures), p.succeeded, p.failed, p.failures), server.rollback(before, p.state))
    else (Report(None, p.succeeded, p.failed, p.failures), server.commit(before, p.state))
  }

  /** The session once the transaction has begun and the table was truncated, if that was asked for. */
  function Opened<S, R>(server: Server<S, R>, state: S, truncateFirst: bool): S {
    if truncateFirst then server.truncate(server.begin(state)) else server.begin(state)
  }

  /** What the import does: an empty upload or a missing column changes nothing, the rest goes by batches. */
  ghost function Outcome<S, R>(server: Server<S, R>, state: S, records: seq<seq<string>>, header: bool, mapping: seq<string>,
                               batchSize: nat, convert: seq<string> -> R, truncateFirst: bool): (Report, S)
    requires batchSize >= 1
  {
    if records == [] then (Report(Some(NoRows), 0, 0, []), state)
    else match Resolve(Headers(records[0], header), Sources(Headers(records[0], header), mapping))
      case Missing(source) => (Report(Some(ColumnNotFound(source)), 0, 0, []), state)
      case Indexes(indexes) =>
        var start := Progress(Opened(server, state, truncateFirst), 0, 0, [], false);
        var rows := DataRows(records, if header then 1 else 0, header, indexes, convert);
        Concluded(server, state, Batched(server, start, rows, batchSize))
  }

  lemma BatchedPart<S, R>(server: Server<S, R>, p: Progress<S>, batch: seq<Numbered<R>>, rest: seq<Numbered<R>>, size: nat)
    requires size >= 1 && !p.stopped && |batch| == size
    ensures Batched(server, p, batch + rest, size) == Batched(server, FlushBatch(server, p, batch), rest, size)
  {
    hide FlushBatch;
    assert (batch + rest)[..size] == batch && (batch + rest)[size..] == rest;
    if rest == [] {
      assert batch + rest == batch;
    }
  }

  /** The import job, batch by batch in one transaction, which the threshold rolls back. */
  method ImportCsv<S, R>(db: Database<S, R>, records: seq<seq<string>>, header: bool, mapping: seq<string>,
                         batchSize: nat, convert: seq<string> -> R, truncateFirst: bool) returns (report: Report)
    requires batchSize >= 1
    modifies db
    ensures (report, db.state) == Outcome(db.server, old(db.state), records, header, mapping, batchSize, convert, truncateFirst)
  {
    hide FlushBatch, DataRows, RowByRow;
    if records == [] {
      return Report(Some(NoRows), 0, 0, []);
    }
    var headers := Headers(records[0], header);
    var resolved := Resolve(headers, Sources(headers, mapping));
    if resolved.Missing? {
      return Report(Some(ColumnNotFound(resolved.source)), 0, 0, []);
    }
    var indexes := resolved.indexes;
    var saved := db.state;
    db.state := db.server.begin(saved);
    if truncateFirst {
      db.state := db.server.truncate(db.state);
    }
    var summary := new Summary();
    var pending: seq<Numbered<R>> := [];
    var first := if header then 1 else 0;
    var rowNumber := if header then 2 else 1;
    ghost var goal := Batched(db.server, summary.With(db.state), DataRows(records, first, header, indexes, convert), batchSize);
    var running := true;
    var k := first;
    assert [] + DataRows(records, first, header, indexes, convert) == DataRows(records, first, header, indexes, convert);
    while running && k < |records|
      invariant first <= k <= |records|
      invariant summary.failed == |summary.failures| <= ROW_ERROR_THRESHOLD
      invariant running <==> summary.failed < ROW_ERROR_THRESHOLD
      invariant running ==> rowNumber == if header then k + 1 else if k == 0 then 1 else k
      invariant fresh(summary) && |pending| < batchSize
      invariant !running ==> summary.With(db.state) == goal
      invariant running ==> Batched(db.server, summary.With(db.state),
                                    pending + DataRows(records, k, header, indexes, convert), batchSize) == goal
    {
      ghost var rest := DataRows(records, k + 1, header, indexes, convert);
      DataRowsFirst(records, k, header, indexes, convert);
      var row := Numbered(rowNumber, convert(Mapped(indexes, records[k])));
      Assoc(pending, [row], rest);
      pending := pending + [row];
      if header || k > 0 {
        rowNumber := rowNumber + 1;
      }
      k := k + 1;
      if |pending| >= batchSize {
        BatchedPart(db.server, summary.With(db.state), pending, rest, batchSize);
        var batch := pending;
        pending := [];
        running := Flush(db, summary, batch);
        assert [] + rest == rest;
      }
    }
    if running {
      NoDataRows(records, header, indexes, convert);
      assert pending + [] == pending;
      FlushNothing(db.server, summary.With(db.state));
      running := Flush(db, summary, pending);
    }
    if !running {
      db.state := db.server.rollback(saved, db.state);
      return Report(Some(TooManyFailures), summary.succeeded, summary.failed, summary.failures);
    }
    db.state := db.server.commit(saved, db.state);
    return Report(None, summary.succeeded, summary.failed, summary.failures);
  }

  lemma FlushNothing<S, R>(server: Server<S, R>, p: Progress<S>)
    ensures FlushBatch(server, p, []) == p
  {}

  lemma NoDataRows<R>(records: seq<seq<string>>, header: bool, indexes: seq<nat>, convert: seq<string> -> R)
    ensures DataRows(records, |records|, header, indexes, convert) == []
  {}

  // ---- Accounting ----

  /** Each failure is a row of `rows`, in their order, that the server refused in some state. */
  ghost predicate FailuresOf<S(!new), R>(server: Server<S, R>, failures: seq<Failure>, rows: seq<Numbered<R>>)
    decreases |rows|
  {
    if rows == [] then failures == []
    else
      || FailuresOf(server, failures, rows[1..])
      || (failures != [] && failures[0].number == rows[0].number
          && (exists s: S :: server.accept(s, rows[0].row) == Refused(failures[0].reason))
          && FailuresOf(server, failures[1..], rows[1..]))
  }

  lemma {:induction false} NoFailures<S(!new), R>(server: Server<S, R>, rows: seq<Numbered<R>>)
    ensures FailuresOf(server, [], rows)
    decreases |rows|
  {
    if rows != [] {
      NoFailures(server, rows[1..]);
    }
  }

  lemma {:induction false} FailuresJoin<S(!new), R>(server: Server<S, R>, fs: seq<Failure>, xs: seq<Numbered<R>>,
                                                    gs: seq<Failure>, ys: seq<Numbered<R>>)
    requires FailuresOf(server, fs, xs) && FailuresOf(server, gs, ys)
    ensures FailuresOf(server, fs + gs, xs + ys)
    decreases |xs|
  {
    if xs == [] {
      assert fs + gs == gs && xs + ys == ys;
    } else {
      assert (xs + ys)[0] == xs[0] && (xs + ys)[1..] == xs[1..] + ys;
      if FailuresOf(server, fs, xs[1..]) {
        FailuresJoin(server, fs, xs[1..], gs, ys);
      } else {
        assert (fs + gs)[0] == fs[0] && (fs + gs)[1..] == fs[1..] + gs;
        FailuresJoin(server, fs[1..], xs[1..], gs, ys);
      }
    }
  }

  /** Counts and failures agree, and the threshold is what stops. */
  ghost predicate Balanced<S>(p: Progress<S>) {
    p.failed == |p.failures| <= ROW_ERROR_THRESHOLD && (p.stopped <==> p.failed == ROW_ERROR_THRESHOLD)
  }

  /** From `p` to `q`, each row was counted unless the threshold stopped, and new failures are of the rows. */
  ghost predicate Accounted<S(!new), R>(server: Server<S, R>, p: Progress<S>, q: Progress<S>, rows: seq<Numbered<R>>) {
    && Balanced(q)
    && (!q.stopped ==> q.succeeded + q.failed == p.succeeded + p.failed + |rows|)
    && p.failures <= q.failures && FailuresOf(server, q.failures[|p.failures|..], rows)
  }

  lemma ExecuteOne<S, R>(server: Server<S, R>, s: S, row: R)
    ensures Execute(server, s, [row])
         == match server.accept(s, row)
            case Fits(next) => Accepted(next)
            case Refused(reason) => Rejected(reason, server.refuse(s))
  {
    assert [row][1..] == [];
    match server.accept(s, row)
    case Fits(next) => assert Fitting(server, next, []) == Fits(next);
    case Refused(_) =>
  }

  lemma {:induction false} RowByRowCounts<S(!new), R>(server: Server<S, R>, p: Progress<S>, rows: seq<Numbered<R>>)
    requires Balanced(p)
    ensures Accounted(server, p, RowByRow(server, p, rows), rows)
    decreases |rows|
  {
    var q := RowByRow(server, p, rows);
    if rows == [] || p.stopped {
      assert q.failures[|p.failures|..] == [];
      NoFailures(server, rows);
    } else {
      ExecuteOne(server, p.state, rows[0].row);
      hide Execute;
      var next := InsertRow(server, p, rows[0]);
      RowByRowCounts(server, next, rows[1..]);
      if |next.failures| > |p.failures| {
        var new_ := q.failures[|p.failures|..];
        assert new_[1..] == q.failures[|next.failures|..];
        assert new_[0] == next.failures[|p.failures|];
        assert server.accept(p.state, rows[0].row) == Refused(new_[0].reason);
      }
    }
  }

  lemma FlushCounts<S(!new), R>(server: Server<S, R>, p: Progress<S>, batch: seq<Numbered<R>>)
    requires Balanced(p) && !p.stopped
    ensures Accounted(server, p, FlushBatch(server, p, batch), batch)
  {
    hide Execute, RowByRow;
    NoFailures(server, batch);
    assert p.failures[|p.failures|..] == [];
    if batch != [] {
      match Execute(server, p.state, RowsOf(batch))
      case Accepted(_) =>
      case Rejected(_, s) => RowByRowCounts(server, p.(state := s), batch);
    }
  }

  /**
   * Whatever the server does with a refused statement: counts and failures agree, an import that is
   * not stopped accounts for every row, one that is stopped has exactly a hundred failures, and the
   * failures are rows in their order.
   */
  lemma {:induction false} BatchedCounts<S(!new), R>(server: Server<S, R>, p: Progress<S>, rows: seq<Numbered<R>>, size: nat)
    requires Balanced(p) && size >= 1
    ensures Accounted(server, p, Batched(server, p, rows, size), rows)
    decreases |rows|
  {
    hide FlushBatch, RowByRow, FailuresOf;
    if rows == [] || p.stopped {
      NoFailures(server, rows);
      assert p.failures[|p.failures|..] == [];
    } else if |rows| <= size {
      FlushCounts(server, p, rows);
    } else {
      var batch, rest := rows[..size], rows[size..];
      FlushCounts(server, p, batch);
      var next := FlushBatch(server, p, batch);
      BatchedCounts(server, next, rest, size);
      var q := Batched(server, next, rest, size);
      var fs, gs := next.failures[|p.failures|..], q.failures[|next.failures|..];
      FailuresJoin(server, fs, batch, gs, rest);
      assert rows == batch + rest && q.failures[|p.failures|..] == fs + gs;
    }
  }

  /** On completion every data record is counted, and the failures are data records in order. */
  lemma ImportAccountsForEveryRecord<S(!new), R>(server: Server<S, R>, state: S, records: seq<seq<string>>, header: bool,
                                                 indexes: seq<nat>, convert: seq<string> -> R, size: nat)
    requires records != [] && size >= 1
    ensures var first := if header then 1 else 0;
      var rows := DataRows(records, first, header, indexes, convert);
      var p := Batched(server, Progress(state, 0, 0, [], false), rows, size);
      && (!p.stopped ==> p.succeeded + p.failed == |records| - first)
      && (p.stopped ==> p.failed == |p.failures| == ROW_ERROR_THRESHOLD)
      && FailuresOf(server, p.failures, rows)
  {
    hide Batched, FailuresOf;
    var first := if header then 1 else 0;
    var rows := DataRows(records, first, header, indexes, convert);
    BatchedCounts(server, Progress(state, 0, 0, [], false), rows, size);
    var p := Batched(server, Progress(state, 0, 0, [], false), rows, size);
    assert p.failures[0..] == p.failures;
  }

  /**
   * Every data record gets its own position in the upload as its number exactly when there is a
   * header or only one record; without a header the first two records share the number 1.
   */
  lemma RowNumbersExact(records: seq<seq<string>>, header: bool)
    ensures (forall k | (if header then 1 else 0) <= k < |records| :: RowNumber(k, header) == k + 1)
            <==> header || |records| <= 1
  {
    if !header && |records| > 1 {
      assert RowNumber(1, header) == 1;
    }
  }
}
