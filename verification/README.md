# MyAdmin, verified in Dafny

MyAdmin is a database administration server for MySQL and PostgreSQL. This project models the parts
of it that are hard to get right and proves what they promise, for all inputs and all runs:

- **Streaming text.** The SQL statement splitter and the CSV reader of imports, both reading an upload
  chunk by chunk, with the printers of exports; the CSV import job with its batches.
- **The job queue.** Bounded workers, a six-state life cycle, cooperative cancellation racing with
  completion.
- **Connection sessions.** Connect, disconnect, reconnect, errors, idle sweeps and bulk closes
  interleaved with database openings that complete at any time.
- **Data queries.** LIKE patterns, positional parameters, the count query cut out of the page query,
  ordering and offset paging, updates and bulk deletes by row identity.
- **The rate limiter** over whole traces, and **the MySQL table designer**, which simulates the columns
  of a table while it emits statements, with a catalog that replays them.

Code that updates state is a class or a method with loops, proved against a function of the old state;
the properties are lemmas about those functions. What is printed is read back by readers written from
the rules of the languages, and what is asked for is said on the request, the rows and the columns
alone. Where the code does not do what its tests or its
documentation suggest, the model keeps the code, and the lemma says exactly when the promise holds.

## Modules

| file | content |
|---|---|
| `text.dfy`, `sets.dfy`, `division.dfy` | string operations of the host language, sizes of sets, division |
| `sql_lexer.dfy`, `sql_splitter.dfy`, `sql_chunks.dfy`, `sql_tokens.dfy` | the lexer as a function, the splitter's loops, chunk boundaries, and what comments and quotes hide |
| `sql_pieces.dfy`, `sql_dump.dfy`, `sql_export.dfy`, `table_ddl.dfy` | printed SQL as the splitter reads it, the SQL export of rows, of whole tables and databases, and the table definitions in it |
| `csv_codec.dfy`, `export_writer.dfy`, `export_reader.dfy`, `ddl_reader.dfy` | CSV printer and reader, the export loop, and exports and table definitions read back |
| `csv_import.dfy`, `import_mapping.dfy`, `import_servers.dfy` | the import job, which field goes to which column, and the two servers it meets |
| `jobs.dfy`, `job_invariants.dfy`, `job_properties.dfy`, `job_effects.dfy` | the job queue, its invariant, its runs, and what single steps do |
| `sessions.dfy`, `session_protocol.dfy`, `session_pings.dfy`, `session_idle.dfy`, `session_effects.dfy` | the session registry, the interleaved protocol, pings that fail late, idle sessions, and what single steps do |
| `like_patterns.dfy`, `data_query.dfy`, `request_rules.dfy`, `query_binding.dfy`, `query_meaning.dfy`, `query_text.dfy`, `query_reader.dfy`, `statement_reader.dfy`, `count_query.dfy` | the query builder, which requests it accepts, its queries read back, and what they mean |
| `data_paging.dfy`, `page_groups.dfy`, `key_columns.dfy` | ordering and paging, which tables are paged exactly, and the key columns pages are ordered by |
| `bulk_delete.dfy`, `row_update.dfy`, `row_requests.dfy`, `update_text.dfy`, `update_reader.dfy` | row identities and mutations, what requests say of rows and columns, and update statements read back |
| `rate_limiter.dfy`, `rate_traces.dfy` | the rate limiter |
| `table_designer.dfy` | the alteration compiler |

`dafny verify dfyconfig.toml` checks everything.

## Where the code falls short of its promise

Each of these is a lemma with both directions, or a concrete counterexample beside the exact condition.

- A chunk of an SQL upload that ends inside `--`, `/*`, `*/`, a backslash escape or a dollar tag can
  change the statements found (`SqlChunks.SafeFirstChunk`); a CSV chunk that ends on a quote inside a
  quoted field can change the rows (`CsvCodec.SafeFirstChunk`).
- A PostgreSQL export whose text has a backslash before a quote or at its end is not split back into
  its statements, because the splitter takes a backslash as an escape and the printer does not
  (`SqlDump.ExportSplitsExactly`, `SqlDump.BackslashBreaksPostgresqlExport`). The same holds of
  identifiers for both engines.
- MySQL describes the default text of a column without quotes, and the exported table definition prints
  it as it is: an apostrophe in it leaves a quote open (`TableDdl.ApostropheBreaksDefinition`). An export
  is split exactly if and only if every definition in it is split exactly alone and the backslash
  condition holds of the rows (`SqlExport.WholeExportSplitsExactly`).
- A CSV row without fields comes back as a row of one empty field (`CsvCodec.CsvRoundTrip`).
- Without a header the first two records of a CSV import are both row 1 (`CsvImport.RowNumbersExact`).
- One refused row makes PostgreSQL abort the import's transaction: the remaining rows fail as well, and
  nothing of the import is kept although rows are reported as succeeded
  (`ImportServers.RefusedRowLosesTheImport`); batches then count other rows than single inserts do,
  unless the first refused row begins its batch (`ImportServers.AbortingBatchesExactly`).
- MySQL commits when a table is truncated, so an import that truncates first and is then stopped by the
  hundredth failure loses the old rows (`ImportServers.ThresholdAfterTruncateLosesTable`,
  `ImportServers.ThresholdRestoresExactly`).
- A session whose audit write throws right after it was installed is dropped without being closed
  (`SessionProtocol.AuditFailureLosesHandle`).
- A status ping that fails after its session was closed ends whatever the key has by then: it closes a
  newer session or outdates a newer attempt to connect (`SessionPings.LatePingFailure`,
  `SessionPings.OldPingClosesNewSession`).
- With windows longer than 15 minutes, a client that waits as long as it was told can be refused again
  (`RateTraces.WaitingIsEnough`).
- A name with a `?` makes PostgreSQL queries fail before they are sent
  (`QueryText.ServerReceivesEveryCondition`); a column whose name contains ` FROM ` breaks the count
  (`CountQuery.CountCutsExactly`); a search over selected columns counts other rows than it shows
  (`CountQuery.CountsThePageExactly`).
- A table whose sorts tie rows across the end of a page can repeat one row and miss another while it is
  exported page by page (`PageGroups.PagesExactlyOnce`, `PageGroups.UnsortedTableCanRepeat`). The result
  of a query is paged without any order, so it is exported exactly only if it fits on one page
  (`PageGroups.UnsortedPagesExactlyOnce`).
- PostgreSQL describes the columns of an index as it prints them, with quotes around names such as
  `userId`, so a page of such a table is ordered by a column that does not exist
  (`KeyColumns.PageOrderExists`, `KeyColumns.QuotedKeyFails`).
- The row identity is resolved without looking at index predicates and expressions, at indexes that
  failed to build, or at tables that inherit from the one described, so a key can denote several rows
  (`BulkDelete.IdentityIsExact`, `BulkDelete.PartialIndexSelectsTwoRows`,
  `BulkDelete.InvalidIndexSelectsTwoRows`, `BulkDelete.InheritanceParentSelectsTwoRows`). An update then
  ends in its internal error, or, on MySQL when no more than one of the rows changes, succeeds
  (`RowUpdate.UpdateIsExact`, `RowUpdate.InternalErrorExactly`).
- The table designer remembers of a column it has added or changed only the name of its type, its
  nullability and its comment. A second change of the column prints the type without length, precision
  and scale, and the default, identity and generation it had before the first
  (`TableDesigner.KnownAfter`, `TableDesigner.SecondChangeForgetsDefault`,
  `TableDesigner.SecondChangeForgetsLength`), and a virtual generated column is printed as a stored one
  (`TableDesigner.DescribedIsKnown`). Every alteration does what it asks if and only if its column is
  known as far as the change keeps it (`TableDesigner.CompilerFaithful`).

## Model

| member | source | states |
|---|---|---|
| SqlSplitter.SqlRecords | packages/import/src/index.ts:530-638 | the streaming loop, which keeps only the unfinished statement and a moving base offset, yields for every list of chunks the statements and offsets that the function `Statements` cuts out of the joined text |
| SqlSplitter.ScanChunk | packages/import/src/index.ts:563-625 | what the inner loop emits, followed by what its new state will emit later, is what its old state would emit |
| SqlSplitter.Turn | packages/import/src/index.ts:563-620 | one turn in any of the six states, nested comments and dollar tags included, is one token of the lexer |
| SqlSplitter.EmitStatement | packages/import/src/index.ts:543-557 | the emitted record is the trimmed candidate with its offsets, and a blank candidate gives none |
| SqlLexer.CutsInside | packages/import/src/index.ts:615-620 | statements are cut only at semicolons, at increasing positions |
| SqlLexer.StepValid | packages/import/src/index.ts:571-614 | the lexer never leaves its reachable modes: comment depth at least one, quotes and tags of its engine, tags of the dollar form |
| SqlTokens.SemicolonCutsHere | packages/import/src/index.ts:615-618 | a semicolon outside comments and quotes cuts, and lexing goes on behind it |
| SqlTokens.OrdinarySkips | packages/import/src/index.ts:596-619 | any other character that begins no comment, quote or dollar quote is passed over alone: for PostgreSQL also `#` and the backtick, for MySQL also the dollar |
| SqlTokens.LineCommentHidden | packages/import/src/index.ts:596-600 | `--`, and for MySQL `#`, hide everything up to the line end, or to the end of the text |
| SqlTokens.BlockCommentHidden | packages/import/src/index.ts:570-579 | a block comment with comments nested in it to any depth is passed over whole |
| SqlTokens.DollarQuoteHidden | packages/import/src/index.ts:589-614 | for PostgreSQL a dollar quote hides a body without its tag |
| SqlTokens.QuotedHidden | packages/import/src/index.ts:581-588 | a quoted text of escaped characters, doubled quotes and other characters is passed over up to its closing quote |
| SqlChunks.AlignedChunkingInvariant | packages/import/src/index.ts:558-630 | for both engines, every chunking whose boundaries fall between tokens of the whole-text lexer, or inside a doubled quote, yields the statements and offsets of the whole text |
| SqlChunks.SafeFirstChunk | packages/import/src/index.ts:558-630 | a first chunk can be followed by any second chunk without changing the statements if and only if it does not end inside a token that later text could complete |
| SqlChunks.PendingIsUnsafe | packages/import/src/index.ts:571-614 | for every chunk that ends inside such a token there is a second chunk that is split differently from the joined text |
| SqlChunks.SplittingLossless | packages/import/src/index.ts:543-637 | for every chunking, aligned or not, the spans are disjoint and increasing, each statement is the trimmed text of its span, and outside the spans there are only blanks and semicolons |
| SqlPieces.SafeLiteral | packages/import/src/index.ts:591-600 | a printed literal whose body pairs every backslash with a character that is not the quote is read as one literal, without a cut |
| SqlPieces.LiteralStrays | packages/import/src/index.ts:591-600 | any other literal leaves the splitter inside a quote, comment or tag after its closing quote |
| SqlPieces.RowStrays | packages/import/src/index.ts:591-620 | once out of step the splitter does not come back within the row, so that the semicolon of the row separates nothing |
| SqlDump.DumpSplits | packages/import/src/index.ts:530-638 | a dump of rows of plain text and quoted literals is split into exactly its rows, each at its own offset, if and only if every literal is safe |
| SqlDump.ExportSplitsExactly | packages/export/src/index.ts:189-195 | the SQL export of any rows of strings, nulls, booleans and numbers is split into its INSERTs in order if and only if no identifier, and for PostgreSQL no text value, has a backslash escaping a quote or the end |
| SqlDump.MysqlExportRoundTrip | packages/database-mysql/src/import-export.ts:37-43 | with backslash-free identifiers a MySQL export comes back as exactly one statement a row, whatever the values, under every aligned chunking |
| SqlDump.BackslashBreaksPostgresqlExport | packages/database-postgresql/src/import-export.ts:31-51 | one column and one row with the PostgreSQL text of one backslash is a counterexample |
| SqlDump.DoubledBackslashSafe | packages/database-mysql/src/import-export.ts:37-43 | doubling backslashes before doubling quotes makes every MySQL text safe for the splitter |
| SqlExport.FileSplitsExactly | packages/export/src/index.ts:173-195 | any file of statements, each with its semicolon and line end, is split into exactly these at their own places if and only if each of them is, alone in a file |
| SqlExport.WriteDatabase | packages/export/src/index.ts:368-402 | the loop over the tables of a database writes their exports one after the other and counts all their rows |
| SqlExport.WholeExportSplitsExactly | packages/export/src/index.ts:355-402 | an SQL export of any number of tables, with or without structure and data, is split under every aligned chunking into exactly its definitions and INSERTs at their own places, if and only if every printed definition comes back alone and the backslash condition holds of every table with rows |
| TableDdl.CreateIsWhole | packages/database-mysql/src/import-export.ts:109-123 | a printed table definition comes back alone whenever no name in it has a backslash that escapes a quote or the end, and no type or default text leaves a quote, comment or tag open or has a separator |
| TableDdl.ApostropheBreaksDefinition | packages/database-mysql/src/metadata/mysql-metadata.ts:332-342 | a definition with a default text with one apostrophe never comes back alone |
| DdlReader.TableReadsBack | packages/database-mysql/src/import-export.ts:109-123 | a printed table definition is read back as its names, its columns in order with type, nullability and default, and its primary key |
| CsvCodec.CsvRecords | packages/import/src/index.ts:468-523 | the reader's loop over chunks returns the rows of the function `Rows`, the last row without a line end included |
| CsvCodec.AlignedChunkingInvariant | packages/import/src/index.ts:468-523 | every chunking that does not split an escaped quote yields the rows of the whole text |
| CsvCodec.SafeFirstChunk | packages/import/src/index.ts:490-500 | a first chunk can be followed by any second chunk if and only if it does not end on a quote inside a quoted field |
| CsvCodec.ReadField | packages/export/src/index.ts:142-146 | the reader takes a printed field up to its separator and gets back exactly its value, whatever delimiters, quotes and line ends it holds |
| CsvCodec.PrintedRows | packages/export/src/index.ts:179-183 | a printed table is read back row by row, a row without fields as one empty field |
| CsvCodec.CsvRoundTrip | packages/export/src/index.ts:142-183 | for the delimiters comma, semicolon and tab a table comes back unchanged under every aligned chunking if and only if every row has a field |
| CsvCodec.CarriageReturnDropped | packages/import/src/index.ts:490-511 | outside quotes a carriage return counts for nothing, wherever it is |
| CsvCodec.ForeignLinesRead | packages/import/src/index.ts:505-522 | a file with CRLF line ends, with or without one at its end, is read as the rows it was printed from |
| ExportWriter.WriteRows | packages/export/src/index.ts:152-201 | the file is the header, the structure or the opening bracket followed by one printed line, INSERT or JSON object a row in order, with commas between objects and the closing bracket, and the count is the number of rows, also where a structure export prints none of them |
| ExportWriter.CsvExportRoundTrip | packages/export/src/index.ts:166-183 | a CSV export with at least one column is imported, header line and cells, as the table it was printed from |
| ExportReader.InsertReadsBack | packages/export/src/index.ts:189-195 | read by the literal rules of its server, an exported INSERT is for the very table, columns and values, whatever characters they have |
| ExportReader.InsertsHoldCells | packages/export/src/index.ts:176-195 | the k-th INSERT of an export gives each exported column the k-th row's own value in this column, null when it is missing, with TRUE, FALSE and numbers written out |
| ExportReader.CsvFieldsAreCells | packages/export/src/index.ts:166-183 | a CSV export is imported as its header and, row by row, under each column the text of the row's own value in this column, empty when it is missing or null |
| ExportReader.JsonHoldsCells | packages/export/src/index.ts:171-199 | a JSON export is an array of one object a row in order, each of the exported columns with the row's own values |
| CsvImport.Flush | packages/import/src/index.ts:1001-1047 | one batch as one statement and, when it is refused, its rows one at a time in the session the refusal leaves; false at the hundredth failure |
| CsvImport.RetryRows | packages/import/src/index.ts:1025-1047 | the fallback loop is row-by-row insertion up to the hundredth failure, whatever a refusal does to the session |
| CsvImport.ImportCsv | packages/import/src/index.ts:964-1090 | for every batch size the report and the database are those of the batches in one transaction, on the table truncated or not, and of the server's commit or, at the threshold, its rollback; a missing column or an empty upload changes nothing |
| CsvImport.RowByRowCounts | packages/import/src/index.ts:1026-1047 | counts and failures agree, a run that is not stopped took every row, one that is stopped has exactly 100 failures, and the failures are rows in order with reasons the server gave |
| CsvImport.BatchedCounts | packages/import/src/index.ts:1001-1075 | the same holds of batches of any size on any server |
| CsvImport.ImportAccountsForEveryRecord | packages/import/src/index.ts:995-1075 | on completion succeeded and failed add up to the data records, and the failures are data records in order with reasons the server gave |
| CsvImport.RowNumbersExact | packages/import/src/index.ts:999-1068 | every data record carries its own position if and only if there is a header or at most one record |
| ImportMapping.ResolveExactly | packages/import/src/index.ts:979-988 | the first mapped source without a field is the one reported, otherwise each source is resolved to the first field of its name |
| ImportMapping.DecimalIsNumeral | packages/import/src/index.ts:973-975 | without a header the fields are named by the decimal numerals of their positions |
| ImportMapping.ImportTakesFields | packages/import/src/index.ts:973-1072 | an import ends in the first source that names no field, with nothing changed, if and only if there is one; otherwise it inserts for each data record in order, under each mapped column, the record's field of this source, empty when the record is shorter |
| ImportServers.BatchIsRows | packages/import/src/index.ts:1001-1024 | an accepted batch changes the session as its rows in order do, for any acceptance that depends on the state |
| ImportServers.BatchesAreRows | packages/import/src/index.ts:1001-1075 | on a server that keeps the transaction alive after a refused statement, batches with the fallback equal plain row-by-row insertion in table, counts, stop point and ordered failures |
| ImportServers.ImportIgnoresBatchSize | packages/import/src/index.ts:964-1090 | on such a server the report and the final table do not depend on the batch size |
| ImportServers.FittingImportIsStored | packages/import/src/index.ts:989-1082 | an import of rows that all fit is committed with exactly these rows stored and reported, on both servers and for every batch size |
| ImportServers.AbortingBatchesExactly | packages/import/src/index.ts:1001-1075 | on a server that aborts the transaction, counts and failed row numbers agree with row-by-row insertion if and only if no row is refused or the first refused row is the first of its batch |
| ImportServers.RefusedRowLosesTheImport | packages/database-postgresql/src/connection/postgresql-connection.ts:258-271 | on such a server one refused row leaves the table as before the transaction, while the rows of the earlier batches are reported as succeeded, without an error below the threshold |
| ImportServers.ServersBehave | packages/database-postgresql/src/import-export.ts:151-180 | a MySQL session is of the first kind and a PostgreSQL session of the second, for any acceptance of rows |
| ImportServers.BadRowInBatch | packages/import/src/index.ts:1001-1047 | a good, a bad and a good row in one batch on PostgreSQL: by rows one succeeds, by batches none |
| ImportServers.ThresholdLeaves | packages/database-mysql/src/driver/mysql-connection.ts:259-276 | stopped by the threshold an import leaves the database as before it began, except on MySQL after a truncation, where what was inserted since stays |
| ImportServers.ThresholdRestoresExactly | packages/database-mysql/src/import-export.ts:172-174 | the threshold gives every table back if and only if nothing was truncated, or the truncation is part of the transaction, or no other table and no rows that reach the threshold exist |
| ImportServers.ThresholdAfterTruncateLosesTable | packages/import/src/index.ts:995-996 | on MySQL a table of seven rows, truncated before a hundred bad rows, is empty after the import was refused, for every batch size |
| Jobs.JobManager.Transition | packages/jobs/src/index.ts:535-542 | the entry's new state, end time and event, or a fault for a move outside the transition table |
| Jobs.JobManager.PumpQueue | packages/jobs/src/index.ts:419-431 | stale ids are skipped and queued jobs started in order while workers are free; waiters are resolved when nothing is left |
| Jobs.JobManager.SubmitJob | packages/jobs/src/index.ts:267-303 | the whole new state of a submission, refused after disposal |
| Jobs.JobManager.CancelJob | packages/jobs/src/index.ts:392-417 | the whole new state and the reply, for queued, running, settled and ended jobs |
| Jobs.JobManager.SettleExecution | packages/jobs/src/index.ts:440-455 | a settled promise marks the entry before its execution goes on |
| Jobs.JobManager.FinalizeExecution | packages/jobs/src/index.ts:456-483 | the job ends as cancelled, failed or completed, its worker is released and the queue pumped |
| Jobs.JobManager.CleanupJobs | packages/jobs/src/index.ts:353-368 | exactly the ended jobs past retention are removed, and counted |
| Jobs.JobManager.AwaitIdle | packages/jobs/src/index.ts:370-375 | a waiter is registered unless the manager is idle |
| Jobs.JobManager.DisposeAll | packages/jobs/src/index.ts:377-390 | disposal empties queue and entries and releases all waiters |
| JobInvariants.ActionInvariant | packages/jobs/src/index.ts:267-483 | every public call, and every step of an execution, keeps the scheduler's invariant |
| JobInvariants.RunInvariant | packages/jobs/src/index.ts:267-483 | the invariant holds after every run |
| JobProperties.SchedulerAlwaysConsistent | packages/jobs/src/index.ts:353-431 | in every reachable state workers are the unreleased executions and never too many, each queued job is queued exactly once, jobs queue only while all workers are busy, waiters are pending only with work, and no step asked for an illegal transition |
| JobProperties.FirstComeFirstServed | packages/jobs/src/index.ts:298-431 | when a job has started, every job submitted before it has started or was cancelled |
| JobProperties.HistoriesArePaths | packages/jobs/src/index.ts:114-134 | each job's announced states are a path of the transition table from queued, cancelling leads only to cancelled, and the abort signal is set exactly in these two states |
| JobProperties.SettledJobIsNeverCancelled | packages/jobs/src/index.ts:392-475 | a job whose executor settled before any cancellation never becomes cancelling or cancelled in any continuation |
| JobProperties.LiveMeansActive | packages/jobs/src/index.ts:419-483 | while some job has not ended, some execution is active |
| JobProperties.FinalizationsEndAllJobs | packages/jobs/src/index.ts:419-483 | without submissions, each finalization ends one live job, as many as there are end them all, and then queue, workers and waiters are empty |
| JobEffects.SubmitExactly | packages/jobs/src/index.ts:267-303 | a submitted job runs at once if a worker is free and waits at the end of the queue otherwise |
| JobEffects.CancelExactly | packages/jobs/src/index.ts:392-417 | for every job: when a cancellation is refused and with which reply, when it changes nothing, and that a queued job is cancelled and a running one signalled |
| JobEffects.FinalizeExactly | packages/jobs/src/index.ts:456-483 | a job that goes on after its promise ends as cancelled, failed or completed, in this order of precedence, and its worker is free |
| JobEffects.CleanupExactly | packages/jobs/src/index.ts:353-368 | a clean-up keeps exactly the jobs that have not ended or ended less than the retention ago, unchanged |
| JobEffects.ReleasedWhenIdle | packages/jobs/src/index.ts:560-563 | waiters are released only when nothing is queued and nothing runs, or by disposal |
| Sessions.ConnectionSessionRegistry.ReserveKey | apps/server/src/connections/connection-manager.ts:306-328 | a key that is neither connected nor connecting becomes connecting under the next token; otherwise nothing changes |
| Sessions.ConnectionSessionRegistry.CompleteReservation | apps/server/src/connections/connection-manager.ts:330-356 | the session is installed exactly when the reservation still stands |
| Sessions.ConnectionSessionRegistry.FailReservation | apps/server/src/connections/connection-manager.ts:358-370 | only the state of the same token becomes an error |
| Sessions.ConnectionSessionRegistry.TouchSession | apps/server/src/connections/connection-manager.ts:381-391 | only a connected state's activity moves |
| Sessions.ConnectionSessionRegistry.DisconnectKey | apps/server/src/connections/connection-manager.ts:393-403 | the key is disconnected under a new token and its handle closed |
| Sessions.ConnectionSessionRegistry.MarkKeyError | apps/server/src/connections/connection-manager.ts:405-424 | the key is in error without a session and its handle closed |
| Sessions.ConnectionSessionRegistry.SweepIdleSessions | apps/server/src/connections/connection-manager.ts:426-442 | exactly the connected keys idle for the timeout are disconnected and closed |
| Sessions.ConnectionSessionRegistry.CloseScope | apps/server/src/connections/connection-manager.ts:268-304 | exactly the keys of the user, the connection or all are disconnected and closed |
| Sessions.DropAllIsMarkThenClose | apps/server/src/connections/connection-manager.ts:268-304 | marking all keys first and closing afterwards issues the same close calls as dropping the keys one by one |
| SessionProtocol.StepInvariant | apps/server/src/connections/connection-manager.ts:865-1012 | every step of the protocol keeps tokens fresh and every handle in flight, held or closed once |
| SessionProtocol.EveryHandleAccountedFor | apps/server/src/connections/connection-manager.ts:899-960 | in every interleaving each opened handle is exactly one of in flight, held by one key, closed by one call, or lost, the last if and only if an audit write threw right after this handle was installed; a key is connected if and only if it holds a session |
| SessionProtocol.OvertakenNeverInstalls | apps/server/src/connections/connection-manager.ts:306-356 | an attempt overtaken by a disconnect, an error, a close, an idle sweep or a reconnect of its key is refused whenever it is delivered, changes no state, and its handle is closed |
| SessionProtocol.OvertakenStale | apps/server/src/connections/connection-manager.ts:444-460 | every disconnect, error, close, idle sweep or reconnect of the key makes the attempt's token stale |
| SessionProtocol.StepStale | apps/server/src/connections/connection-manager.ts:306-460 | no step makes a stale attempt current again |
| SessionProtocol.StepTokens | apps/server/src/connections/connection-manager.ts:306-328 | tokens never decrease, and a new attempt has one never used before |
| SessionProtocol.SpentTokensStaySpent | apps/server/src/connections/connection-manager.ts:306-328 | the token of a finished attempt is never reserved or current again in any continuation |
| SessionProtocol.ConnectingIsOneAttempt | apps/server/src/connections/connection-manager.ts:306-356 | a key is connecting if and only if one running attempt can still be installed for it, and there is never a second |
| SessionProtocol.FailDropsNothing | apps/server/src/connections/connection-manager.ts:358-370 | a failing attempt never drops an installed session |
| SessionProtocol.DisconnectFollowsRegistry | apps/server/src/connections/connection-manager.ts:393-403 | the protocol's disconnect is the registry's own |
| SessionProtocol.BulkFollowsRegistry | apps/server/src/connections/connection-manager.ts:268-442 | the protocol's sweeps and closes are the registry's own |
| SessionProtocol.AuditFailureLosesHandle | apps/server/src/connections/connection-manager.ts:923-959 | a three-step run in which a throwing audit write leaves an open handle nobody holds |
| SessionPings.LatePingFailure | apps/server/src/connections/connection-manager.ts:1015-1075 | a ping begun while a handle is the session of a key, failing after any other steps, closes that handle if it is still the session and nothing else; it closes a session never pinged, or outdates a running attempt, if and only if the pinged handle is closed by then and the key is connected, or connecting, again |
| SessionPings.OldPingClosesNewSession | apps/server/src/connections/connection-manager.ts:405-424 | a run of connect, reconnect and connect after which the failed ping of the first session closes the second |
| SessionIdle.UsedSessionStays | apps/server/src/connections/connection-manager.ts:381-442 | a used session keeps its handle through all other steps, sweeps within the timeout included, as long as its own key is not disconnected, reconnected, failed or closed |
| SessionIdle.IdleSessionIsSwept | apps/server/src/connections/connection-manager.ts:426-442 | a sweep closes a session if and only if the whole timeout has passed since its last use, and says why |
| SessionEffects.ConnectExactly | apps/server/src/connections/connection-manager.ts:306-328 | a busy key refuses to connect, any other gets one new attempt under the next token, and no other key changes |
| SessionEffects.FailedAttemptEnds | apps/server/src/connections/connection-manager.ts:358-370 | a failed attempt is over, and its key shows the error if and only if the attempt was still its own |
| SessionEffects.CloseExactly | apps/server/src/connections/connection-manager.ts:268-304 | a bulk close disconnects exactly the keys of its user or connection |
| SessionEffects.IdleReasonsFit | apps/server/src/connections/connection-manager.ts:426-460 | in every run a key that shows an idle close is disconnected |
| RateLimiter.InMemoryRateLimiter.Consume | packages/auth/src/rate-limiter.ts:57-98 | only the key's bucket changes, to what the function `Consumed` says, with its answer |
| RateTraces.RateBound | packages/auth/src/rate-limiter.ts:57-98 | on every trace with a monotone clock any interval of k windows holds at most (k + 1) times the limit of allowed calls of a key |
| RateTraces.BlocksNeverShrink | packages/auth/src/rate-limiter.ts:79-82 | later blocks of a key are never shorter, and none exceeds 15 minutes |
| RateTraces.FirstBlock | packages/auth/src/rate-limiter.ts:79-82 | the first block of a key lasts as long as the window, at most fifteen minutes |
| RateTraces.BlocksDouble | packages/auth/src/rate-limiter.ts:79-82 | each later block of the key lasts twice as long as the one before, at most fifteen minutes, whatever other keys do |
| RateTraces.RetryIsCeiling | packages/auth/src/rate-limiter.ts:70-88 | the announced delay is the time left in seconds, rounded up, and at least one |
| RateTraces.WaitingIsEnough | packages/auth/src/rate-limiter.ts:70-98 | the first call of a key that waited as told after a refusal is always allowed, whatever other keys do meanwhile, if and only if the window is at most 15 minutes |
| RateTraces.RemainingIsExact | packages/auth/src/rate-limiter.ts:91-97 | after an allowed call exactly `remaining` further calls at once are allowed |
| RateTraces.LongWindowRefuses | packages/auth/src/rate-limiter.ts:60-82 | for every longer window a burst and one call after the longest block is refused |
| LikePatterns.EscapeIsPerCharacter | packages/database-postgresql/src/data.ts:304-306 | the three replacements in sequence equal escaping each character once |
| LikePatterns.PatternsAreExact | packages/database-postgresql/src/data.ts:318-333 | the contains, startsWith and endsWith patterns match exactly the texts that contain, start with or end with the raw value, up to case folding |
| DataQuery.Builder.PushFilter | packages/database-postgresql/src/data.ts:308-340 | the returned clause and the parameters pushed behind the old ones, nothing pushed for an invalid filter |
| DataQuery.Builder.Build | packages/database-mysql/src/data.ts:333-388 | the builder that pushes parameters while it builds clauses returns the query of the function `DataQueryOf`, for both engines |
| RequestRules.FilterAccepted | packages/database-postgresql/src/data.ts:280-340 | a filter is accepted if and only if its operator fits the kind of its column and it has the value or values it needs |
| RequestRules.RequestAccepted | packages/database-postgresql/src/data.ts:342-410 | a query is built if and only if the limit is between 1 and 500, the columns are known and distinct, every filter is accepted and every sort names a known column |
| RequestRules.OrderedAsRequested | packages/database-postgresql/src/data.ts:369-377 | the order is the requested sorts as requested and then the key columns upwards, each column where it comes first |
| RequestRules.CountOrdered | packages/database-mysql/src/data.ts:582-586 | the count has no order for PostgreSQL, and that of the key columns for MySQL |
| QueryBinding.DriverDelivers | packages/database-postgresql/src/connection/postgresql-connection.ts:242-257 | a text cut at every question mark is executed if and only if its fixed parts have none, and then each value is at its own placeholder |
| QueryMeaning.FilterMeaning | packages/database-postgresql/src/data.ts:308-340 | a clause takes exactly the parameters pushed with it and is true of exactly the rows the filter asks for |
| QueryMeaning.BindingPreservesMeaning | packages/database-postgresql/src/data.ts:342-368 | the single parameter list belongs to the clauses in order, and the WHERE selects exactly the rows that pass all filters and the search |
| QueryText.ServerReceivesEveryCondition | packages/database-postgresql/src/data.ts:342-417 | placeholders and parameters agree in number and every condition and the window get their own; PostgreSQL executes the query if and only if no name in it has a question mark |
| QueryReader.NameBack | packages/database-postgresql/src/metadata/quoting.ts:4-12 | a quoted name is read back as itself, whatever quotes and keywords it contains, and nothing after it is taken into it |
| QueryReader.ConditionBack | packages/database-postgresql/src/data.ts:308-368 | every condition, with IN lists and search disjunctions, is read back from its own text with its own values |
| StatementReader.QueryReadsBack | packages/database-mysql/src/data.ts:333-388 | for any names the whole query, received with its values, is read back as the statement asked for: selected columns, table, all filters and the search, the completed order with directions, limit and offset; only a query without columns reads as none |
| CountQuery.CountCutsExactly | packages/database-postgresql/src/data.ts:589-597 | the text between the first FROM and the last LIMIT is the query's own table, predicate and order if and only if no selected name contains a FROM between blanks |
| CountQuery.CountIsDelivered | packages/database-postgresql/src/data.ts:589-606 | for every request with valid filters the count keeps exactly the parameters of its predicate, without those of the window, and each condition gets its own |
| CountQuery.CountsThePage | packages/database-postgresql/src/data.ts:589-592 | the rows counted are the rows paged whenever there is no search or it covers the same columns |
| CountQuery.CountsThePageExactly | packages/database-postgresql/src/data.ts:589-592 | that condition is also necessary when some row passes the filters without containing the search and some unselected text column is free of filters |
| CountQuery.UnfilteredCountExactly | packages/database-mysql/src/data.ts:582-586 | without filters it is necessary and sufficient |
| DataPaging.BuildSorts | packages/database-postgresql/src/data.ts:369-377 | invalid sorts are refused; otherwise the first sort of each column is kept and the primary key appended |
| DataPaging.CompletedSortsSeparate | packages/database-postgresql/src/data.ts:369-377 | completed by a primary key every sort list tells any two rows apart |
| DataPaging.OneOrderingIffSeparated | packages/database-postgresql/src/data.ts:378-381 | the server has exactly one order to return if and only if the sorts tell any two rows apart |
| DataPaging.Page | packages/database-postgresql/src/data.ts:428-434 | fetching one row more than the limit gives the page and whether more follows |
| DataPaging.StreamTable | packages/database-postgresql/src/import-export.ts:98-109 | the export loop ends and yields the pages of its queries in order |
| DataPaging.StreamQuery | packages/database-mysql/src/import-export.ts:184-214 | the query export loop, one query a page until a page is short, ends and yields the pages of its queries in order, whether or not the last page is full |
| DataPaging.PagesAreTheTable | packages/database-postgresql/src/import-export.ts:98-109 | over a fixed keyed table the pages of separate queries make up the one sorted order, every row exactly once |
| PageGroups.PagesExactlyOnce | packages/database-postgresql/src/import-export.ts:98-109 | for every page size, whatever order the server chooses for each query, the export has every row exactly once if and only if no group of tied rows reaches over the end of a page |
| PageGroups.UnsortedPagesExactlyOnce | packages/database-postgresql/src/import-export.ts:206-232 | without a sort or key, as for every query export, each row comes exactly once whatever the server answers if and only if the rows fit on one page |
| PageGroups.UnsortedTableCanRepeat | packages/database-mysql/src/import-export.ts:19-104 | with the real page size of 500, any 501 unsorted rows can be exported with one row twice and another missing |
| KeyColumns.SortsExistExactly | packages/database-postgresql/src/data.ts:369-380 | an accepted request is ordered by columns of the table if and only if the described key columns are columns of it |
| KeyColumns.PageOrderExists | packages/database-postgresql/src/metadata/index.ts:919-923 | with the key columns as described this holds for MySQL, and for PostgreSQL if and only if every key name is one the server prints without quotes, or its quoted form is a column too |
| KeyColumns.QuotedKeyFails | packages/database-postgresql/src/data.ts:403-410 | a table whose only key column needs quotes is ordered by the quoted name with its quotes, which is no column |
| BulkDelete.IdentityIsIndex | packages/database-postgresql/src/data.ts:64-90 | a resolved identity is a primary or unique index, possibly a partial one, of columns that are never null |
| RowRequests.IdentityExactly | packages/database-postgresql/src/data.ts:64-90 | for every description: the first primary key if none of its columns can be null, otherwise the first other unique index without such columns, and none for a view or without either |
| BulkDelete.AtMostOneRow | packages/database-postgresql/src/data.ts:182-205 | a complete key selects at most one row when no table inherits from this one and a valid unique index without predicate and expressions lies within the identity |
| BulkDelete.IdentityIsExact | packages/database-postgresql/src/data.ts:64-90 | keys select at most one row in every table the server's indexes allow if and only if there is no identity, or no table inherits from this one and such an index lies within it |
| BulkDelete.PartialIndexSelectsTwoRows | packages/database-postgresql/src/metadata/index.ts:382-393 | a partial unique index on one column is resolved as an identity, and a key selects two rows outside its predicate |
| BulkDelete.InheritanceParentSelectsTwoRows | packages/database-postgresql/src/data.ts:243-263 | the primary key of a table that another inherits from is resolved, and a key selects a row of each |
| BulkDelete.InvalidIndexSelectsTwoRows | packages/database-postgresql/src/metadata/index.ts:913-931 | a unique index that failed to build is described and resolved, and a key selects two rows |
| BulkDelete.DeleteRows | packages/database-postgresql/src/data.ts:536-573 | the loop of deletes in a transaction commits all of them or restores the table |
| BulkDelete.BulkDeleteIsExact | packages/database-mysql/src/data.ts:532-567 | a bulk delete succeeds if and only if every key denotes exactly one row and no two the same, and then exactly these rows are gone; nothing is asked of the indexes |
| RowRequests.KeyDenotes | packages/database-postgresql/src/data.ts:182-205 | a key is valid if and only if it has exactly the columns of the identity, each with a text that is written as a value and not null; it denotes the rows whose every identity column has the key's value for this column |
| RowRequests.DeletesAsNamed | packages/database-mysql/src/data.ts:532-567 | a bulk delete succeeds if and only if every key names one row and no row is named twice, and leaves exactly the rows no key names; otherwise the first failing key decides between invalid and conflict |
| RowUpdate.UpdateRow | packages/database-mysql/src/data.ts:459-502 | both engines' ways of judging an executed update, by returned rows or by ROW_COUNT with a lookup, with rollback on every error |
| RowUpdate.IdentityKept | packages/database-postgresql/src/data.ts:227-248 | an update never changes whether a row matches its key |
| RowUpdate.UpdateIsExact | packages/database-postgresql/src/data.ts:463-500 | an update is a conflict if and only if its key denotes no row, internally wrong if and only if the engine counts more than one, and done otherwise; done, it rewrites what the key denotes and nothing else, and the key denotes the result; nothing is asked of the indexes |
| RowRequests.UpdatesAsAsked | packages/database-postgresql/src/data.ts:227-248 | an update is invalid if and only if a value or the key is; otherwise every named row gets, in each column set, what this column's own value is written as, and all other cells and rows stay |
| RowRequests.CountsExactly | packages/database-mysql/src/data.ts:459-502 | the rows an engine counts are the named ones, or those of them with a cell that changes |
| RowUpdate.IndexedUpdateIsSingle | packages/database-mysql/src/data.ts:459-502 | with a valid unique index without predicate and expressions within the identity, and no inheriting table, an update never ends in the internal error and rewrites exactly one row, for either engine and either way of counting |
| RowUpdate.InternalErrorExactly | packages/database-postgresql/src/data.ts:489-494 | the internal error is reachable if and only if some column can be set, and a table inherits from this one or no such index lies within the identity |
| UpdateText.UpdateReachesItsColumns | packages/database-postgresql/src/data.ts:227-248 | changed values and key values, pushed in that order, belong to their own columns; PostgreSQL executes the text if and only if no name has a question mark |
| UpdateReader.UpdateReadsBack | packages/database-mysql/src/data.ts:202-224 | for any names an update, received with its values, is read back as the table, each requested column with its own value, each identity column with the key's value for it, and returned rows for PostgreSQL only |
| TableDesigner.Compilation.CompileAlteration | packages/database-mysql/src/table-designer.ts:748-813 | the new simulated columns and the statements added, or the error with nothing changed |
| TableDesigner.Compilation.Compile | packages/database-mysql/src/table-designer.ts:551-580 | alterations are compiled in order up to the first error, and an empty list is refused |
| TableDesigner.StepFaithful | packages/database-mysql/src/table-designer.ts:748-813 | the statements of one alteration never fail on a table with the simulated columns and leave it so; they do what is asked of names, types, nullability, defaults, identity, generation and comments, and nothing else, if and only if it changes no column or one known as far as the change keeps it |
| TableDesigner.ModifyReplays | packages/database-mysql/src/table-designer.ts:770-813 | a changed column has every changed part as asked and the others as remembered, and it is dropped and recreated, losing its data, if and only if its generation expression becomes another one |
| TableDesigner.CompilerFaithful | packages/database-mysql/src/table-designer.ts:551-573 | every accepted list replays without an error and in step, and each alteration does what it asks if and only if each changed column is known by then as far as its change keeps it |
| TableDesigner.ChangedOnceIsAsked | packages/database-mysql/src/table-designer.ts:387-425 | a list that changes known columns, each once and none it added, does what it asks |
| TableDesigner.KnownAfter | packages/database-mysql/src/table-designer.ts:360-385 | of a column added or changed the designer knows name, nullability and comment as they are, of its type what the bare type name says, and default, identity and generation as they were |
| TableDesigner.DescribedIsKnown | packages/database-mysql/src/table-designer.ts:360-385 | a described column is known as it is if and only if its printed type is taken apart into its parts, its default is an expression and its generated values are stored |
| TableDesigner.SecondChangeForgetsDefault | packages/database-mysql/src/table-designer.ts:387-425 | a default is set and then a comment: the second statement takes the default away again |
| TableDesigner.SecondChangeForgetsLength | packages/database-mysql/src/table-designer.ts:360-385 | a length is set and then a comment: the second statement has no length |
| TableDesigner.StepAccepts | packages/database-mysql/src/table-designer.ts:748-813 | an alteration is accepted if and only if it makes sense on the names and what it adds, renames or changes passes validation |
| TableDesigner.AcceptanceIsByName | packages/database-mysql/src/table-designer.ts:748-813 | an accepted list makes sense step by step on the table's names, and a list refused for a missing or taken name does not |

## Left out

- Uploads are sequences of characters cut into chunks: UTF-8 decoding, surrogate pairs, byte counts, files and gzip are not part of this model.
- Progress reports, audits, redaction, timers, listeners and job ownership are left out; each public call of the job manager is one atomic step with listeners that do not call back.
- Job entries are values in a map: an execution looks its entry up by id instead of holding a reference to it.
- After `dispose` only the state that disposal leaves is described; the properties of the queue are about managers not yet disposed.
- Cancelling an import through its abort signal is left out, and a batch is taken to report as many affected rows as it has.
- The JSON text of one object is a parameter of the export, and JSON and object cells in CSV exports are left out; a cell is null, a boolean, a number or a string.
- SqlDump.ExportSplitsExactly: numbers are printed texts of digits, letters, points and signs, without two dashes in a row or one at the end.
- Identifiers with a NUL character, which quoting refuses, are not modelled.
- TableDdl.CreateIsWhole: one direction; a text that leaves something open can be closed again by a later one, so the exact statement is about whole definitions, `SqlExport.FileSplitsExactly`. Columns come in the order of their positions.
- KeyColumns.PageOrderExists: the words PostgreSQL quotes although they are plain names are a parameter, and key expressions are left out.
- SessionPings.LatePingFailure: a ping changes nothing until it fails; the activity time a successful late ping moves is the step `Activity`.
- The lexers are proved against each other and the printers, not against MySQL's or PostgreSQL's own grammar; nested comments and dollar tags are those of the splitter.
- Sessions registered the legacy way, server information, latency, error categories and status publishing are left out of the registry; keys are pairs instead of joined texts.
- SessionProtocol.EveryHandleAccountedFor: a provider that breaks after it opened is taken to close its own handle, as `openProvider` does, and close calls are counted when issued, not when they finish.
- Databases are sets of placed rows with atomic statements; a transaction of updates or deletes restores the old rows on an error. Isolation, concurrent writers and deadlocks that roll back more than one statement are left out.
- BulkDelete.IdentityIsExact: the equality of an index is taken to be that of its columns; indexes under another operator class or collation are not modelled.
- CsvImport.ImportCsv: the truncation itself is taken to succeed, and a refused commit or a refused statement inside the truncation is left out.
- Collation is abstract: ordering is by a rank of each cell, equality is equality of cells, and LIKE compares characters after an arbitrary fold.
- StatementReader.QueryReadsBack: the reader knows quoted names, the keywords and operators the builder prints, and values in place of placeholders; it is not a server's whole grammar.
- QueryBinding.DriverDelivers: cutting at question marks is what the PostgreSQL adapter does; MySQL receives the text whole, and the placeholders it sees are taken to be those outside quoted names.
- Column kinds are read off the data types by the original; here each column comes with its kind, and filter values are texts.
- The conversion of cells into parameters is a parameter of the mutation models, and so are the constraints a server checks on an update.
- CountQuery.CountsThePageExactly: the necessary half asks for a row that passes the filters and misses the search, and for an unfiltered extra column; filters that no such row passes can make different predicates agree.
- DataPaging.PagesAreTheTable: the table is fixed while it is paged, and the primary key is taken to tell its rows apart.
- Selection exports, single-row deletes, inserts and the lookup of inserted rows would only repeat the models above.
- RateTraces.RateBound: traces without `reset`, with a clock that does not run backwards.
- RateTraces.WaitingIsEnough: waiting is measured from the last refusal of the key, with no other call of the same key in between.
- TableDesigner.Compilation.CompileAlteration: taking a described type apart and validating are parameters; index and constraint alterations are opaque steps that do not touch the columns, the primary-key flag of an added column and the SQL text of a column definition are left out.
- DdlReader.TableReadsBack: types and default texts are texts of one line, and the table has columns.
- ExportReader.InsertReadsBack: numbers are printed texts that are no keyword and have no separator; the literals are those of the two servers in their default modes.
- ExportReader.JsonHoldsCells: the host is taken to print well-formed JSON values.
- TableDesigner.CompilerFaithful: names are those the host folds to lower case; a server that folds differently is not modelled.
- User management, settings, vaults, HTTP and the user interface are not part of this model.
