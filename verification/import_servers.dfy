/**
 * Batches against inserting row by row, for the two ways a server goes on after a refused statement:
 * MySQL keeps the transaction alive, PostgreSQL refuses everything until its end and commits nothing.
 */
module ImportServers {
  import opened Text
  import opened CsvImport
  import opened Division
  import opened SqlLexer

  // ---- Accepted batches ----

  lemma {:induction false} RowByRowAppend<S, R>(server: Server<S, R>, p: Progress<S>, xs: seq<Numbered<R>>, ys: seq<Numbered<R>>)
    ensures RowByRow(server, p, xs + ys) == RowByRow(server, RowByRow(server, p, xs), ys)
    decreases |xs|
  {
    if xs == [] {
      assert xs + ys == ys;
    } else if !p.stopped {
      hide InsertRow;
      assert (xs + ys)[0] == xs[0] && (xs + ys)[1..] == xs[1..] + ys;
      RowByRowAppend(server, InsertRow(server, p, xs[0]), xs[1..], ys);
    }
  }

  /** An accepted batch is what its rows would have done one at a time. */
  lemma {:induction false} BatchIsRows<S, R>(server: Server<S, R>, p: Progress<S>, rows: seq<Numbered<R>>)
    requires !p.stopped && Fitting(server, p.state, RowsOf(rows)).Fits?
    ensures RowByRow(server, p, rows)
         == p.(state := Fitting(server, p.state, RowsOf(rows)).state, succeeded := p.succeeded + |rows|)
    decreases |rows|
  {
    if rows != [] {
      assert RowsOf(rows)[1..] == RowsOf(rows[1..]);
      ExecuteOne(server, p.state, rows[0].row);
      hide Execute;
      BatchIsRows(server, InsertRow(server, p, rows[0]), rows[1..]);
    }
  }

  // ---- A server that keeps the transaction alive ----

  /** A refused statement leaves the session as it was. */
  ghost predicate Keeps<S(!new), R>(server: Server<S, R>) { forall s: S :: server.refuse(s) == s }

  lemma FlushIsRows<S(!new), R>(server: Server<S, R>, p: Progress<S>, batch: seq<Numbered<R>>)
    requires Keeps(server) && !p.stopped
    ensures FlushBatch(server, p, batch) == RowByRow(server, p, batch)
  {
    if batch != [] && Execute(server, p.state, RowsOf(batch)).Accepted? {
      BatchIsRows(server, p, batch);
    }
  }

  /** Whatever the batch size, batches with the fallback are plain row-by-row insertion. */
  lemma {:induction false} BatchesAreRows<S(!new), R>(server: Server<S, R>, p: Progress<S>, rows: seq<Numbered<R>>, size: nat)
    requires Keeps(server) && size >= 1
    ensures Batched(server, p, rows, size) == RowByRow(server, p, rows)
    decreases |rows|
  {
    hide FlushBatch;
    if rows != [] && !p.stopped {
      if |rows| <= size {
        FlushIsRows(server, p, rows);
      } else {
        var batch, rest := rows[..size], rows[size..];
        FlushIsRows(server, p, batch);
        BatchesAreRows(server, FlushBatch(server, p, batch), rest, size);
        RowByRowAppend(server, p, batch, rest);
        assert rows == batch + rest;
      }
    }
  }

  /** So the report and the table of an import do not depend on the batch size. */
  lemma ImportIgnoresBatchSize<S(!new), R>(server: Server<S, R>, state: S, records: seq<seq<string>>, header: bool,
      mapping: seq<string>, one: nat, two: nat, convert: seq<string> -> R, truncateFirst: bool)
    requires Keeps(server) && one >= 1 && two >= 1
    ensures Outcome(server, state, records, header, mapping, one, convert, truncateFirst)
         == Outcome(server, state, records, header, mapping, two, convert, truncateFirst)
  {
    hide Batched, DataRows, Headers, Resolve, Keeps;
    if records != [] {
      match Resolve(Headers(records[0], header), Sources(Headers(records[0], header), mapping))
      case Missing(_) =>
      case Indexes(indexes) =>
        var start := Progress(Opened(server, state, truncateFirst), 0, 0, [], false);
        var rows := DataRows(records, if header then 1 else 0, header, indexes, convert);
        BatchesAreRows(server, start, rows, one);
        BatchesAreRows(server, start, rows, two);
    }
  }

  // ---- A server that aborts the transaction ----

  /** After a refused statement every row is refused, and commit and rollback give the state before. */
  ghost predicate Aborts<S(!new), R(!new)>(server: Server<S, R>) {
    && (forall s: S, r: R :: server.accept(server.refuse(s), r).Refused?)
    && (forall before: S, s: S :: server.commit(before, server.refuse(s)) == before)
    && (forall before: S, s: S :: server.rollback(before, server.refuse(s)) == before)
  }

  /** A statement has been refused. */
  ghost predicate Aborted<S(!new), R>(server: Server<S, R>, p: Progress<S>) { exists s: S :: p.state == server.refuse(s) }

  /** How many rows fit before the first that does not. */
  function Passing<S, R>(server: Server<S, R>, s: S, rows: seq<Numbered<R>>): (n: nat)
    ensures n <= |rows|
  {
    if rows == [] then 0
    else match server.accept(s, rows[0].row)
      case Fits(next) => 1 + Passing(server, next, rows[1..])
      case Refused(_) => 0
  }

  function Numbers(failures: seq<Failure>): seq<nat> {
    seq(|failures|, i requires 0 <= i < |failures| => failures[i].number)
  }

  /** The failed row numbers when every row fails, up to the threshold. */
  function AllFail<R>(numbers: seq<nat>, rows: seq<Numbered<R>>): seq<nat>
    decreases |rows|
  {
    if rows == [] || |numbers| >= ROW_ERROR_THRESHOLD then numbers else AllFail(numbers + [rows[0].number], rows[1..])
  }

  lemma {:induction false} AllFailAppend<R>(numbers: seq<nat>, xs: seq<Numbered<R>>, ys: seq<Numbered<R>>)
    ensures AllFail(numbers, xs + ys) == AllFail(AllFail(numbers, xs), ys)
    decreases |xs|
  {
    if xs == [] {
      assert xs + ys == ys;
    } else if |numbers| < ROW_ERROR_THRESHOLD {
      assert (xs + ys)[0] == xs[0] && (xs + ys)[1..] == xs[1..] + ys;
      AllFailAppend(numbers + [xs[0].number], xs[1..], ys);
    }
  }

  /** `q` comes from `p` by failing all of `rows`. */
  ghost predicate FailsAll<S, R>(p: Progress<S>, q: Progress<S>, rows: seq<Numbered<R>>) {
    && q.succeeded == p.succeeded && Balanced(q)
    && Numbers(q.failures) == AllFail(Numbers(p.failures), rows)
  }

  lemma FailOne<S(!new), R(!new)>(server: Server<S, R>, p: Progress<S>, r: Numbered<R>)
    requires Balanced(p) && !p.stopped && server.accept(p.state, r.row).Refused?
    ensures var q := InsertRow(server, p, r);
      && Balanced(q) && q.state == server.refuse(p.state) && q.succeeded == p.succeeded
      && Numbers(q.failures) == Numbers(p.failures) + [r.number]
  {
    ExecuteOne(server, p.state, r.row);
    hide Execute;
  }

  lemma {:induction false} AbortedRows<S(!new), R(!new)>(server: Server<S, R>, p: Progress<S>, rows: seq<Numbered<R>>)
    requires Aborts(server) && Balanced(p) && Aborted(server, p)
    ensures var q := RowByRow(server, p, rows); FailsAll(p, q, rows) && Aborted(server, q)
    decreases |rows|
  {
    hide InsertRow;
    if rows != [] && !p.stopped {
      FailOne(server, p, rows[0]);
      AbortedRows(server, InsertRow(server, p, rows[0]), rows[1..]);
    }
  }

  lemma AbortedFlush<S(!new), R(!new)>(server: Server<S, R>, p: Progress<S>, batch: seq<Numbered<R>>)
    requires Aborts(server) && Balanced(p) && Aborted(server, p)
    ensures var q := FlushBatch(server, p, batch); FailsAll(p, q, batch) && Aborted(server, q)
  {
    hide RowByRow;
    if batch != [] {
      assert RowsOf(batch)[0] == batch[0].row;
      AbortedRows(server, p.(state := server.refuse(p.state)), batch);
    }
  }

  lemma {:induction false} AbortedBatches<S(!new), R(!new)>(server: Server<S, R>, p: Progress<S>, rows: seq<Numbered<R>>, size: nat)
    requires Aborts(server) && Balanced(p) && Aborted(server, p) && size >= 1
    ensures var q := Batched(server, p, rows, size); FailsAll(p, q, rows) && Aborted(server, q)
    decreases |rows|
  {
    hide FlushBatch, Aborts, Aborted;
    if rows != [] && !p.stopped {
      if |rows| <= size {
        AbortedFlush(server, p, rows);
      } else {
        var batch, rest := rows[..size], rows[size..];
        AbortedFlush(server, p, batch);
        AbortedBatches(server, FlushBatch(server, p, batch), rest, size);
        AllFailAppend(Numbers(p.failures), batch, rest);
        assert rows == batch + rest;
      }
    }
  }

  lemma {:induction false} PassingFits<S, R>(server: Server<S, R>, s: S, rows: seq<Numbered<R>>, n: nat)
    requires n <= |rows|
    ensures Fitting(server, s, RowsOf(rows[..n])).Fits? <==> n <= Passing(server, s, rows)
    ensures n <= Passing(server, s, rows) ==>
      Passing(server, s, rows) == n + Passing(server, Fitting(server, s, RowsOf(rows[..n])).state, rows[n..])
    decreases n
  {
    if n == 0 {
      assert rows[0..] == rows && RowsOf(rows[..0]) == [];
    } else {
      var head := RowsOf(rows[..n]);
      assert head[0] == rows[0].row && head[1..] == RowsOf(rows[1..][..n - 1]) && rows[1..][n - 1..] == rows[n..];
      match server.accept(s, rows[0].row)
      case Fits(next) => PassingFits(server, next, rows[1..], n - 1);
      case Refused(_) =>
    }
  }

  lemma NextRefused<S, R>(server: Server<S, R>, s: S, rows: seq<Numbered<R>>)
    requires Passing(server, s, rows) == 0 && rows != []
    ensures server.accept(s, rows[0].row).Refused?
  {}

  /** Row by row: the rows before the first refused one succeed, all others fail. */
  lemma RowsUpToRefusal<S(!new), R(!new)>(server: Server<S, R>, p: Progress<S>, rows: seq<Numbered<R>>)
    requires Aborts(server) && Balanced(p) && !p.stopped && Passing(server, p.state, rows) < |rows|
    ensures var f, q := Passing(server, p.state, rows), RowByRow(server, p, rows);
      && FailsAll(p.(succeeded := p.succeeded + f), q, rows[f..]) && Aborted(server, q)
  {
    hide *;
    var f := Passing(server, p.state, rows);
    RowsBeforeRefusal(server, p, rows);
    var live, rest := RowByRow(server, p, rows[..f]), rows[f..];
    RowByRowAppend(server, p, rows[..f], rest);
    assert rows == rows[..f] + rest;
    StillBalanced(p, live);
    RefusalFirst(server, live, rest);
    SameStart(live, p.(succeeded := p.succeeded + f), RowByRow(server, p, rows), rest);
  }

  lemma RowsBeforeRefusal<S, R>(server: Server<S, R>, p: Progress<S>, rows: seq<Numbered<R>>)
    requires !p.stopped
    ensures var f := Passing(server, p.state, rows);
      var live := RowByRow(server, p, rows[..f]);
      live == p.(state := live.state, succeeded := p.succeeded + f) && Passing(server, live.state, rows[f..]) == 0
  {
    hide *;
    var f := Passing(server, p.state, rows);
    PassingFits(server, p.state, rows, f);
    BatchIsRows(server, p, rows[..f]);
  }

  lemma StillBalanced<S>(p: Progress<S>, q: Progress<S>)
    requires Balanced(p) && q.failed == p.failed && q.failures == p.failures && q.stopped == p.stopped
    ensures Balanced(q)
  {}

  lemma SameStart<S, R>(p: Progress<S>, p': Progress<S>, q: Progress<S>, rows: seq<Numbered<R>>)
    requires FailsAll(p, q, rows) && p'.succeeded == p.succeeded && p'.failures == p.failures
    ensures FailsAll(p', q, rows)
  {}

  lemma RefusalFirst<S(!new), R(!new)>(server: Server<S, R>, p: Progress<S>, rows: seq<Numbered<R>>)
    requires Aborts(server) && Balanced(p) && !p.stopped && rows != [] && Passing(server, p.state, rows) == 0
    ensures var q := RowByRow(server, p, rows); FailsAll(p, q, rows) && Aborted(server, q)
  {
    NextRefused(server, p.state, rows);
    hide InsertRow, Aborts, Passing;
    FailOne(server, p, rows[0]);
    AbortedRows(server, InsertRow(server, p, rows[0]), rows[1..]);
  }

  /** Where the batch of row `f` begins. */
  function BatchStart(f: nat, size: nat): (n: nat)
    requires size >= 1
    ensures n <= f < n + size
  {
    if f < size then 0 else size + BatchStart(f - size, size)
  }

  lemma {:induction false} BatchStartIs(f: nat, size: nat)
    requires size >= 1
    ensures BatchStart(f, size) == f <==> f % size == 0
  {
    if f >= size {
      BatchStartIs(f - size, size);
      ModNext(f - size, size);
    }
  }

  /** By batches: the batches before that of the first refused row succeed, all other rows fail. */
  lemma {:induction false} BatchesUpToRefusal<S(!new), R(!new)>(server: Server<S, R>, p: Progress<S>, rows: seq<Numbered<R>>, size: nat)
    requires Aborts(server) && Balanced(p) && !p.stopped && size >= 1 && Passing(server, p.state, rows) < |rows|
    ensures var n, q := BatchStart(Passing(server, p.state, rows), size), Batched(server, p, rows, size);
      && FailsAll(p.(succeeded := p.succeeded + n), q, rows[n..]) && Aborted(server, q)
    decreases |rows|
  {
    hide *;
    var f := Passing(server, p.state, rows);
    BatchStartNext(f, size);
    if f >= size {
      AcceptedFirst(server, p, rows, size);
      var next := FlushBatch(server, p, rows[..size]);
      StillBalanced(p, next);
      BatchesUpToRefusal(server, next, rows[size..], size);
      var n := BatchStart(f - size, size);
      assert rows[size..][n..] == rows[size + n..];
      SameStart(next.(succeeded := next.succeeded + n), p.(succeeded := p.succeeded + (size + n)), Batched(server, p, rows, size), rows[size + n..]);
    } else {
      RefusedFirst(server, p, rows, size);
      assert rows[0..] == rows && p.(succeeded := p.succeeded + 0) == p;
    }
  }

  lemma BatchStartNext(f: nat, size: nat)
    requires size >= 1
    ensures BatchStart(f, size) == if f < size then 0 else size + BatchStart(f - size, size)
  {}

  lemma AcceptedFirst<S(!new), R(!new)>(server: Server<S, R>, p: Progress<S>, rows: seq<Numbered<R>>, size: nat)
    requires !p.stopped && size >= 1 && size <= Passing(server, p.state, rows) < |rows|
    ensures var next := FlushBatch(server, p, rows[..size]);
      && next == p.(state := next.state, succeeded := p.succeeded + size)
      && Passing(server, p.state, rows) == size + Passing(server, next.state, rows[size..])
      && Batched(server, p, rows, size) == Batched(server, next, rows[size..], size)
  {
    PassingFits(server, p.state, rows, size);
  }

  lemma RefusedFirst<S(!new), R(!new)>(server: Server<S, R>, p: Progress<S>, rows: seq<Numbered<R>>, size: nat)
    requires Aborts(server) && Balanced(p) && !p.stopped && size >= 1
    requires Passing(server, p.state, rows) < size && Passing(server, p.state, rows) < |rows|
    ensures var q := Batched(server, p, rows, size); FailsAll(p, q, rows) && Aborted(server, q)
  {
    hide RowByRow, Aborts, Passing, AllFail;
    var n := if |rows| <= size then |rows| else size;
    var batch, rest := rows[..n], rows[n..];
    PassingFits(server, p.state, rows, n);
    var refused := p.(state := server.refuse(p.state));
    assert Aborted(server, refused);
    AbortedRows(server, refused, batch);
    assert FlushBatch(server, p, batch) == RowByRow(server, refused, batch);
    if |rows| <= size {
      assert batch == rows;
    } else {
      AbortedBatches(server, FlushBatch(server, p, batch), rest, size);
      AllFailAppend(Numbers(p.failures), batch, rest);
      assert rows == batch + rest;
    }
  }

  /** Counts and failed row numbers agree. */
  ghost predicate SameSummary<S>(p: Progress<S>, q: Progress<S>) {
    p.succeeded == q.succeeded && p.failed == q.failed && Numbers(p.failures) == Numbers(q.failures)
  }

  /**
   * On a server that aborts the transaction, batches and single rows give the same counts and failed
   * row numbers if and only if no row is refused, or the first refused row is the first of its batch.
   */
  lemma AbortingBatchesExactly<S(!new), R(!new)>(server: Server<S, R>, p: Progress<S>, rows: seq<Numbered<R>>, size: nat)
    requires Aborts(server) && Balanced(p) && !p.stopped && size >= 1
    ensures var f := Passing(server, p.state, rows);
      SameSummary(Batched(server, p, rows, size), RowByRow(server, p, rows)) <==> f == |rows| || f % size == 0
  {
    var f := Passing(server, p.state, rows);
    if f == |rows| {
      AllAccepted(server, p, rows, size);
    } else {
      hide Batched, RowByRow, Aborts;
      RowsUpToRefusal(server, p, rows);
      BatchesUpToRefusal(server, p, rows, size);
      BatchStartIs(f, size);
    }
  }

  lemma {:induction false} AllAccepted<S(!new), R(!new)>(server: Server<S, R>, p: Progress<S>, rows: seq<Numbered<R>>, size: nat)
    requires !p.stopped && size >= 1 && Passing(server, p.state, rows) == |rows|
    ensures Batched(server, p, rows, size) == RowByRow(server, p, rows)
    decreases |rows|
  {
    hide RowByRow;
    if rows == [] {
      NoRowsLeft(server, p);
    } else {
      var n := if |rows| <= size then |rows| else size;
      PassingFits(server, p.state, rows, n);
      BatchIsRows(server, p, rows[..n]);
      if |rows| <= size {
        assert rows[..n] == rows;
      } else {
        var next := FlushBatch(server, p, rows[..size]);
        AllAccepted(server, next, rows[size..], size);
        RowByRowAppend(server, p, rows[..size], rows[size..]);
        assert rows == rows[..size] + rows[size..];
      }
    }
  }

  lemma NoRowsLeft<S, R>(server: Server<S, R>, p: Progress<S>)
    ensures RowByRow(server, p, []) == p
  {}

  /**
   * As soon as one row is refused, such an import ends with the table it began with, the one before
   * the truncation, also when it reports rows as succeeded and no error.
   */
  lemma RefusedRowLosesTheImport<S(!new), R(!new)>(server: Server<S, R>, before: S, p: Progress<S>, rows: seq<Numbered<R>>, size: nat)
    requires Aborts(server) && Balanced(p) && !p.stopped && size >= 1 && Passing(server, p.state, rows) < |rows|
    ensures var (report, state) := Concluded(server, before, Batched(server, p, rows, size));
      && state == before
      && report.succeeded == p.succeeded + BatchStart(Passing(server, p.state, rows), size)
      && (report.error == None <==> p.failed + |rows| - BatchStart(Passing(server, p.state, rows), size) < ROW_ERROR_THRESHOLD)
  {
    BatchesUpToRefusal(server, p, rows, size);
    AllFailSize(Numbers(p.failures), rows[BatchStart(Passing(server, p.state, rows), size)..]);
    hide Batched, Passing, AllFail;
  }

  lemma {:induction false} AllFailSize<R>(numbers: seq<nat>, rows: seq<Numbered<R>>)
    requires |numbers| <= ROW_ERROR_THRESHOLD
    ensures |AllFail(numbers, rows)|
         == if |numbers| + |rows| < ROW_ERROR_THRESHOLD then |numbers| + |rows| else ROW_ERROR_THRESHOLD
    decreases |rows|
  {
    if rows != [] && |numbers| < ROW_ERROR_THRESHOLD {
      AllFailSize(numbers + [rows[0].number], rows[1..]);
    }
  }

  // ---- The two servers ----

  datatype Session<+T> = Session(table: T, aborted: bool, transaction: bool)

  type Rules<!T, !R> = (T, R) -> Fit<T>

  /** Truncating commits the open transaction; from then on every statement commits itself. */
  function MysqlServer<T, R>(fit: Rules<T, R>, empty: T): Server<Session<T>, R> {
    Server((s: Session<T>, r: R) =>
             match fit(s.table, r)
             case Fits(t) => Fits(s.(table := t))
             case Refused(reason) => Refused(reason),
           (s: Session<T>) => s,
           (s: Session<T>) => s.(transaction := true),
           (s: Session<T>) => s.(table := empty, transaction := false),
           (before: Session<T>, s: Session<T>) => s.(transaction := false),
           (before: Session<T>, s: Session<T>) => if s.transaction then before else s)
  }

  /** A refused statement aborts the transaction; truncating is part of it. */
  function PostgresqlServer<T, R>(fit: Rules<T, R>, empty: T): Server<Session<T>, R> {
    Server((s: Session<T>, r: R) =>
             if s.aborted then Refused("current transaction is aborted")
             else match fit(s.table, r)
               case Fits(t) => Fits(s.(table := t))
               case Refused(reason) => Refused(reason),
           (s: Session<T>) => s.(aborted := true),
           (s: Session<T>) => s.(transaction := true),
           (s: Session<T>) => s.(table := empty),
           (before: Session<T>, s: Session<T>) => if s.aborted then before else s.(transaction := false),
           (before: Session<T>, s: Session<T>) => before)
  }

  function ServerOf<T, R>(e: Engine, fit: Rules<T, R>, empty: T): Server<Session<T>, R> {
    if e == Mysql then MysqlServer(fit, empty) else PostgresqlServer(fit, empty)
  }

  lemma ServersBehave<T(!new), R(!new)>(fit: Rules<T, R>, empty: T)
    ensures Keeps(MysqlServer(fit, empty)) && Aborts(PostgresqlServer(fit, empty))
  {}

  // ---- The threshold ----

  /** A session between two transactions. */
  predicate AtRest<T>(s: Session<T>) { !s.aborted && !s.transaction }

  lemma {:induction false} MysqlRowsStay<T, R>(fit: Rules<T, R>, empty: T, p: Progress<Session<T>>, rows: seq<Numbered<R>>)
    ensures RowByRow(MysqlServer(fit, empty), p, rows).state.transaction == p.state.transaction
    ensures RowByRow(MysqlServer(fit, empty), p, rows).state.aborted == p.state.aborted
    decreases |rows|
  {
    if rows != [] && !p.stopped {
      ExecuteOne(MysqlServer(fit, empty), p.state, rows[0].row);
      hide Execute;
      MysqlRowsStay(fit, empty, InsertRow(MysqlServer(fit, empty), p, rows[0]), rows[1..]);
    }
  }

  /** The import of `rows` from `before`, up to its end. */
  function Run<T, R>(e: Engine, fit: Rules<T, R>, empty: T, before: Session<T>, truncateFirst: bool, rows: seq<Numbered<R>>,
                     size: nat): Progress<Session<T>>
    requires size >= 1
  {
    var server := ServerOf(e, fit, empty);
    Batched(server, Progress(Opened(server, before, truncateFirst), 0, 0, [], false), rows, size)
  }

  /** What the threshold leaves: the table as it was, but on MySQL after truncating what was inserted since. */
  lemma ThresholdLeaves<T(!new), R>(e: Engine, fit: Rules<T, R>, empty: T, before: Session<T>, truncateFirst: bool,
                                    rows: seq<Numbered<R>>, size: nat)
    requires size >= 1 && AtRest(before)
    ensures var p := Run(e, fit, empty, before, truncateFirst, rows, size);
      p.stopped ==> Concluded(ServerOf(e, fit, empty), before, p).1 == if e == Mysql && truncateFirst then p.state else before
    ensures e == Mysql ==> Run(e, fit, empty, before, truncateFirst, rows, size).state.transaction == !truncateFirst
  {
    if e == Mysql {
      var server := MysqlServer(fit, empty);
      var start := Progress(Opened(server, before, truncateFirst), 0, 0, [], false);
      BatchesAreRows(server, start, rows, size);
      MysqlRowsStay(fit, empty, start, rows);
      hide Batched, RowByRow;
    }
  }

  /** Whatever was in the table, an import stopped by the threshold gives it back. */
  ghost predicate AlwaysRestores<T(!new), R(!new)>(e: Engine, fit: Rules<T, R>, empty: T, truncateFirst: bool, size: nat)
    requires size >= 1
  {
    forall before: Session<T>, rows: seq<Numbered<R>> |
      AtRest(before) && Run(e, fit, empty, before, truncateFirst, rows, size).stopped ::
        Concluded(ServerOf(e, fit, empty), before, Run(e, fit, empty, before, truncateFirst, rows, size)).1 == before
  }

  ghost predicate Different<T>(x: T, y: T) { x != y }

  /** There is a table to lose, and rows that reach the threshold on the emptied one. */
  ghost predicate CanLose<T(!new), R(!new)>(fit: Rules<T, R>, empty: T, size: nat)
    requires size >= 1
  {
    && (exists x: T, y: T :: Different(x, y))
    && exists before: Session<T>, rows: seq<Numbered<R>> ::
         AtRest(before) && Run(Mysql, fit, empty, before, true, rows, size).stopped
  }

  /** After truncating, the run does not depend on what was in the table. */
  lemma EmptiedAlike<T, R>(fit: Rules<T, R>, empty: T, one: Session<T>, two: Session<T>, rows: seq<Numbered<R>>, size: nat)
    requires size >= 1 && AtRest(one) && AtRest(two)
    ensures Run(Mysql, fit, empty, one, true, rows, size) == Run(Mysql, fit, empty, two, true, rows, size)
  {}

  /**
   * The threshold leaves every table as it was before the import if and only if there was no
   * truncation, or the server truncates within the transaction, as PostgreSQL does and MySQL does
   * not, or there is nothing that could be lost.
   */
  lemma ThresholdRestoresExactly<T(!new), R(!new)>(e: Engine, fit: Rules<T, R>, empty: T, truncateFirst: bool, size: nat)
    requires size >= 1
    ensures AlwaysRestores(e, fit, empty, truncateFirst, size) <==> !truncateFirst || e == Postgresql || !CanLose(fit, empty, size)
  {
    hide Run, Concluded, ServerOf;
    forall before: Session<T>, rows: seq<Numbered<R>> | AtRest(before)
      ensures var p := Run(e, fit, empty, before, truncateFirst, rows, size);
        p.stopped ==> Concluded(ServerOf(e, fit, empty), before, p).1 == if e == Mysql && truncateFirst then p.state else before
    {
      ThresholdLeaves(e, fit, empty, before, truncateFirst, rows, size);
    }
    if truncateFirst && e == Mysql {
      if CanLose(fit, empty, size) {
        SomethingLost(fit, empty, size);
      } else {
        NothingLost(fit, empty, size);
      }
    }
  }

  lemma SomethingLost<T(!new), R(!new)>(fit: Rules<T, R>, empty: T, size: nat)
    requires size >= 1 && CanLose(fit, empty, size)
    ensures !AlwaysRestores(Mysql, fit, empty, true, size)
  {
    hide Run, Concluded, ServerOf;
    var x: T, y: T :| Different(x, y);
    var before: Session<T>, rows: seq<Numbered<R>> :| AtRest(before) && Run(Mysql, fit, empty, before, true, rows, size).stopped;
    var p := Run(Mysql, fit, empty, before, true, rows, size);
    var other := Session(if p.state.table == x then y else x, false, false);
    EmptiedAlike(fit, empty, before, other, rows, size);
    ThresholdLeaves(Mysql, fit, empty, other, true, rows, size);
    assert Run(Mysql, fit, empty, other, true, rows, size) == p;
  }

  lemma NothingLost<T(!new), R(!new)>(fit: Rules<T, R>, empty: T, size: nat)
    requires size >= 1 && !CanLose(fit, empty, size)
    ensures AlwaysRestores(Mysql, fit, empty, true, size)
  {
    hide Run, Concluded, ServerOf;
    forall before: Session<T>, rows: seq<Numbered<R>> | AtRest(before) && Run(Mysql, fit, empty, before, true, rows, size).stopped
      ensures Concluded(ServerOf(Mysql, fit, empty), before, Run(Mysql, fit, empty, before, true, rows, size)).1 == before
    {
      ThresholdLeaves(Mysql, fit, empty, before, true, rows, size);
      var p := Run(Mysql, fit, empty, before, true, rows, size);
      MysqlNeverAborts(fit, empty, before, rows, size);
      assert !Different(p.state.table, before.table);
    }
  }

  lemma MysqlNeverAborts<T(!new), R>(fit: Rules<T, R>, empty: T, before: Session<T>, rows: seq<Numbered<R>>, size: nat)
    requires size >= 1 && AtRest(before)
    ensures AtRest(Run(Mysql, fit, empty, before, true, rows, size).state)
  {
    var server := MysqlServer(fit, empty);
    var start := Progress(Opened(server, before, true), 0, 0, [], false);
    BatchesAreRows(server, start, rows, size);
    MysqlRowsStay(fit, empty, start, rows);
    hide Batched, RowByRow;
  }

  // ---- A completed import ----

  /** The table with all rows in it, nothing when one of them is refused. */
  function Filled<T, R>(fit: Rules<T, R>, table: T, rows: seq<Numbered<R>>): Option<T> {
    if rows == [] then Some(table)
    else match fit(table, rows[0].row)
      case Fits(next) => Filled(fit, next, rows[1..])
      case Refused(_) => None
  }

  lemma {:induction false} AllRowsStored<T(!new), R(!new)>(e: Engine, fit: Rules<T, R>, empty: T, p: Progress<Session<T>>,
                                                           rows: seq<Numbered<R>>)
    requires !p.stopped && !p.state.aborted && Filled(fit, p.state.table, rows).Some?
    ensures Passing(ServerOf(e, fit, empty), p.state, rows) == |rows|
    ensures RowByRow(ServerOf(e, fit, empty), p, rows)
         == p.(state := p.state.(table := Filled(fit, p.state.table, rows).value), succeeded := p.succeeded + |rows|)
    decreases |rows|
  {
    var server := ServerOf(e, fit, empty);
    if rows != [] {
      var next := fit(p.state.table, rows[0].row).state;
      assert server.accept(p.state, rows[0].row) == Fits(p.state.(table := next));
      ExecuteOne(server, p.state, rows[0].row);
      hide Execute;
      AllRowsStored(e, fit, empty, InsertRow(server, p, rows[0]), rows[1..]);
    }
  }

  /**
   * An import whose rows all fit, one after the other, into the table or into the truncated one, is
   * committed with exactly these rows stored and reported, on both servers and for every batch size.
   */
  lemma {:induction false} FittingImportIsStored<T(!new), R(!new)>(e: Engine, fit: Rules<T, R>, empty: T, before: Session<T>,
      truncateFirst: bool, rows: seq<Numbered<R>>, size: nat)
    requires size >= 1 && AtRest(before) && Filled(fit, if truncateFirst then empty else before.table, rows).Some?
    ensures Concluded(ServerOf(e, fit, empty), before, Run(e, fit, empty, before, truncateFirst, rows, size))
         == (Report(None, |rows|, 0, []),
             Session(Filled(fit, if truncateFirst then empty else before.table, rows).value, false, false))
  {
    var server := ServerOf(e, fit, empty);
    var start := Progress(Opened(server, before, truncateFirst), 0, 0, [], false);
    assert start.state.table == (if truncateFirst then empty else before.table) && !start.state.aborted;
    AllRowsStored(e, fit, empty, start, rows);
    AllAccepted(server, start, rows, size);
    hide Batched, RowByRow, Passing, Filled;
  }

  /** A table of good rows. */
  function GoodRows(table: nat, good: bool): Fit<nat> { if good then Fits(table + 1) else Refused("bad") }

  lemma OnePasses(rows: seq<Numbered<bool>>)
    requires |rows| > 1 && rows[0].row && !rows[1].row
    ensures Passing(PostgresqlServer(GoodRows, 0), Session(0, false, true), rows) == 1
  {
    var server := PostgresqlServer(GoodRows, 0);
    var first, second := GoodRows(0, true), GoodRows(1, false);
    assert first == Fits(1) && second == Refused("bad");
    assert server.accept(Session(0, false, true), true) == Fits(Session(1, false, true));
    assert server.accept(Session(1, false, true), false) == Refused("bad");
    assert rows[1..][0] == rows[1];
    assert Passing(server, Session(1, false, true), rows[1..]) == 0;
  }

  /** A good, a bad and a good row in one batch: by rows one succeeds, by batches none. */
  lemma BadRowInBatch()
    ensures var server := PostgresqlServer(GoodRows, 0);
      var p := Progress(Session(0, false, true), 0, 0, [], false);
      var rows := [Numbered(2, true), Numbered(3, false), Numbered(4, true)];
      && RowByRow(server, p, rows).succeeded == 1 && Numbers(RowByRow(server, p, rows).failures) == [3, 4]
      && Batched(server, p, rows, 3).succeeded == 0 && Numbers(Batched(server, p, rows, 3).failures) == [2, 3, 4]
  {
    var server := PostgresqlServer(GoodRows, 0);
    var p := Progress(Session(0, false, true), 0, 0, [], false);
    var rows := [Numbered(2, true), Numbered(3, false), Numbered(4, true)];
    ServersBehave(GoodRows, 0);
    var rest := rows[1..];
    OnePasses(rows);
    RowsUpToRefusal(server, p, rows);
    BatchesUpToRefusal(server, p, rows, 3);
    hide RowByRow, Batched, Passing, PostgresqlServer;
    var none: seq<Numbered<bool>> := [];
    assert rest[1..] == [Numbered(4, true)] && [Numbered(4, true)][1..] == none;
    assert AllFail([3, 4], none) == [3, 4] && AllFail([2, 3, 4], none) == [2, 3, 4];
    assert [3] + [4] == [3, 4] && [2] + [3] == [2, 3] && [2, 3] + [4] == [2, 3, 4];
    assert AllFail([3], [Numbered(4, true)]) == [3, 4];
    assert AllFail([2, 3], [Numbered(4, true)]) == [2, 3, 4];
    assert AllFail([2], rest) == [2, 3, 4];
    assert Numbers([]) == [] && [] + [3] == [3] && [] + [2] == [2];
    assert AllFail([], rest) == [3, 4] && rows[0..] == rows && AllFail([], rows) == [2, 3, 4];
  }

  function BadRows(n: nat): seq<Numbered<bool>> { seq(n, _ => Numbered(2, false)) }

  lemma {:induction false} BadRowsFail(p: Progress<Session<nat>>, n: nat)
    requires Balanced(p) && p.failed + n <= ROW_ERROR_THRESHOLD
    ensures var q := RowByRow(MysqlServer(GoodRows, 0), p, BadRows(n));
      q.state == p.state && q.succeeded == p.succeeded && q.failed == p.failed + n && Balanced(q)
    decreases n
  {
    if n > 0 {
      var rows := BadRows(n);
      assert rows != [] && rows[1..] == BadRows(n - 1) && rows[0] == Numbered(2, false);
      var server := MysqlServer(GoodRows, 0);
      assert GoodRows(p.state.table, rows[0].row) == Refused("bad");
      assert server.accept(p.state, rows[0].row).Refused? && server.refuse(p.state) == p.state;
      FailOne(server, p, rows[0]);
      hide InsertRow, BadRows;
      var next := InsertRow(server, p, rows[0]);
      assert |Numbers(next.failures)| == |Numbers(p.failures)| + 1;
      BadRowsFail(next, n - 1);
    }
  }

  /** Seven rows, truncated, and a hundred bad ones: the import is refused and the seven rows are gone. */
  lemma ThresholdAfterTruncateLosesTable(size: nat)
    requires size >= 1
    ensures var before := Session(7, false, false);
      var p := Run(Mysql, GoodRows, 0, before, true, BadRows(ROW_ERROR_THRESHOLD), size);
      var (report, after) := Concluded(MysqlServer(GoodRows, 0), before, p);
      report.error == Some(TooManyFailures) && report.succeeded == 0 && after.table == 0
  {
    var server, before := MysqlServer(GoodRows, 0), Session(7, false, false);
    var rows := BadRows(ROW_ERROR_THRESHOLD);
    var start := Progress(Opened(server, before, true), 0, 0, [], false);
    BatchesAreRows(server, start, rows, size);
    BadRowsFail(start, ROW_ERROR_THRESHOLD);
    hide Batched, RowByRow;
  }
}
