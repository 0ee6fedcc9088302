# Mulligan, verified

Mulligan follows a MySQL server's binary log, keeps a window of its row changes in a
store, and turns a window of that store back into SQL that undoes it. This project
models the parts that make those guarantees and proves them in Dafny 4.11. From this
directory, `dafny verify dfyconfig.toml` checks all of it.

## What is proved

* **A plan undoes its run.** Tables are multisets of rows with an optional primary key
  and columns computed from the others. For every run of row changes the plan exists,
  and every execution of its statements leads back, state by state, to the start, each
  statement affecting exactly one row (`Undo`). Through a table filter it restores the
  selected tables and touches no other; on a keyed table it keeps what later writes did
  to other columns (`LaterWrites`).
* **The text means the statement.** A lexer and parser for the server's side are the
  inverse of the printers: for all names and values, and under both settings of
  NO_BACKSLASH_ESCAPES, a statement reads back as exactly the intended one
  (`SqlReading`, `StatementText`). A whole script, comments built from untrusted text
  included, reads as the two session settings and the plan (`ScriptReading`).
* **The codec.** Encoding round-trips; decoding is total, refuses every cut or padded
  record, and whatever it accepts encodes and decodes to itself (`CodecProps`); which
  records are the encoder's own is an if and only if (`CodecForms`). A stored change
  calls for the same statement as the original (`Storage`).
* **The store answers from the log.** Over every run of appends, re-deliveries, gaps,
  misses, openings, settings and prunes, an accepted window with a stated start is
  answered with exactly the log of first deliveries filtered by the window, and holds no
  instant of any gap or miss ever recorded (`StoreRuns`). Coverage never moves back once
  it is opened; paging reads exactly the window while changes arrive (`Paging`); the two
  integrity checks never report on what a collector writes (`Integrity`). When windows
  without a stated start are answered from the log is an if and only if (`UnsetStart`).
* **Exactly once.** The assembler reports with each event exactly what it commits,
  compressed or not, schema changes inside transactions included (`Assembler`,
  `Binlog`). Over every run of reads, heartbeats, commits, rollbacks, disconnects,
  lagging resumes and lost commits, from an empty store on, the store holds exactly what
  some prefix of the log's events commits, each transaction once and in order, and the
  misses of every change in it that could not be read; the prefix reaches past the
  checkpoint and as far as the connection has read (`Collector`, `ExactlyOnce`). The
  stream loop and the reconnecting loop around it, as the code has them, are such runs
  (`Streaming`). Which rows beside a schema change are stored, and where a transaction
  can be resumed, are ifs and only ifs (`SchemaInside`).
* **Streaming is planning.** The streaming revert emits exactly the plan of the window,
  or of the changes newer than the first that has no inverse, and visits nothing when
  coverage refuses (`Revert`).
* **From end to end.** A source goes through a run of changes and logs it; a collector
  follows the log through any failures; a window is accepted. Then its revert completes,
  and the script, read by the server and executed, takes every selected table back to
  where it was before the window and leaves the others alone. A window from the middle of
  the log is taken out of it: when no change outside touches what a change inside touched
  before, the database becomes what the changes outside alone make of it (`Separate`,
  `Recovery`). `Witness` has a log, a run and a database that meet every assumption of
  this.

Code that works in place is imperative here: the codec's cursor (`CodecReader`), the
assembler, the store's tables (`StoreTables`), the script writer (`Script`), the
follower's loops and in-place filter (`Streaming`) and column marking over shared slices
(`ReadOnly`). Each method is proved against a specification function, and the lemmas are
about those functions and about runs of them.

## Terms

A Go string or byte slice is a sequence of characters below 256. Instants are whole
seconds; Go's zero time is an absent instant. A failed call is a `Result`. One store
transaction is one step, with the unique identity and the cascade of
`internal/store/schema.go:29-48`. `Format` and `Env` stand for what the Go library
decides: the shortest text of a float, the calendar form of a moment, which runes are
printable. What is assumed of them is `Literal.Sound` and `Script.SoundEnv`: a finite
float prints as a plain number, a date prints in digits, dashes, colons and spaces, a
control character is not printable, and a moment is written on one line; where literals
are told apart, also `Literal.TellsApart`: no two floats and no two seconds print alike.
The SQL reader
follows sections 9.1.1, 9.1.2, 9.1.4, 9.2 and 9.7 of the MySQL 8.0 Reference Manual;
UTF-8 validity follows section 4 of RFC 3629, and the varints the "Base 128 Varints" and
"Signed Integers" parts of the Protocol Buffers encoding specification.

Assumed of the world: SQL equality holds only for identical non-NULL values, and stored
floats are finite and not negative zero (`Change.Exact`); with LIMIT 1 the server picks
any one matching row; a column takes each literal for the value it was printed from
(`Recovery.Readable`; `Recovery.AServerReads` shows that it can); slices are shorter than
2^63; a transaction delivered again is the same transaction; changes and commits carry a
timestamp; every transaction carries a GTID of its own or none does, and commits stand
at distinct places. A transaction that holds a schema change, as CREATE TABLE ... SELECT
is logged, is part of the exactly-once results when it carries no GTID and is not
compressed (`Collector.LogOk`, `Collector.SchemaFits`); what happens otherwise is the
first point of the next section. A stream resumes between items of the log or where
nothing was gathered before (`Collector.Resumable`), and the first stream of an empty
store finds the log from its start. Rolling back to a savepoint is bookkeeping to the
assembler (`Witness.RollbackToKeepsRows`), so the model takes the rows before it as
committed. Case folding and trimming are those of ASCII.

## Where the code says less than its comments

The model follows the code.

* A schema change commits on its own under the GTID of the transaction around it and
  leaves that GTID in force (`internal/source/mysql/assemble.go:272-287`), so the rows
  committed after it have an identity that is stored already. They are taken for a
  re-delivery (`internal/store/append.go:46-58`) and dropped without a gap or a miss, and
  the checkpoint moves past them: `Witness.RowsMayBeLost`. The rows of a transaction are
  stored if and only if no schema change inside it goes under its identity, which is when
  it holds none, or carries no GTID and has none at the position of its end
  (`SchemaInside.RowsAreStoredExactly`, `Binlog.SharedIdentityExactly`). In a payload only
  the last of what is committed is reported: everything is if and only if it commits once
  at most (`Binlog.AllIsReportedExactly`).
* A GTID left over in this way also names an anonymous transaction that follows, whose
  rows are then dropped: `Witness.LeftOverGtidMayLoseRows`. Rows go under their own
  transaction's identity if and only if none is left over that the transaction does not
  replace by its own, or it reads as the very place of the commit
  (`Binlog.RowsAreOwnExactly`).
* The checkpoint of a schema change inside a transaction is a place inside it. A stream
  that resumes there has lost what was gathered before (`Witness.ResumeInsideMayLose`);
  nothing was if and only if no annotation is in force and no readable rows came before
  (`SchemaInside.ResumableExactly`).
* An incomplete script carries its error as it is printed
  (`internal/api/revert.go:74-86`), and a table name in it may hold a newline that ends
  the comment: `ScriptReading.TableNameMayEndTheComment`. The script reads as its settings
  and the inverses written so far if and only if what follows the first line of the error
  has no meaning (`Revert.IncompleteReadsExactly`); an error of one line has none.
* `internal/source/mysql/source.go:44-49` says a collector ignores time bounds, but the
  filter at `:590` applies them; `Collector.Wants` applies them too.
* A rows event that cannot be read leaves the pending annotation in force
  (`internal/source/mysql/assemble.go:149-156`), so the next rows may carry the statement
  of others: `Binlog.StatementMayBeAnothers`. Every change carries its own if and only if
  no unreadable rows event under an annotation is followed by a readable one before the
  next annotation (`Binlog.StatementsAreOwnExactly`).
* A payload keeps only its last transaction and its last miss
  (`internal/source/mysql/assemble.go:227-232`): `Assembler.LastTransactionWins`. With one
  transaction inside, that transaction is not lost (`Assembler.CompressedIsPlain`), but a
  miss can be (`Assembler.PayloadMayLoseAMiss`), and then a window on it is answered
  (`ExactlyOnce.PayloadMayHideAMiss`). The report covers every miss if and only if no two
  stand at different instants: `Assembler.MissesAreCoveredExactly`,
  `Binlog.ReportsAllExactly`.
* Every stream opens with a rotate that carries no time, and the first event clears the
  resume point whatever it is (`internal/source/mysql/source.go:436-451`), so the gap
  between the checkpoint and the log is never recorded there:
  `ExactlyOnce.NoGapIsRecorded`.
* On a store that was never opened, pruning can move the lower edge back
  (`internal/store/coverage.go:120-129`, `internal/store/prune.go:83-89`): exactly when is
  `StoreRuns.PruneMovesBackExactly`. A refused window is then answered, exactly in the
  case of `StoreRuns.PruneAnswersExactly`; a run that gets there is
  `StoreRuns.PruneMayAnswerMore`.
* Without a stated start, an answer may hold a change that was pruned and delivered
  again: `UnsetStart.UnsetMayAnswerMore`. It agrees with the log from the lower edge on
  (`StoreRuns.AnswerFromTheEdge`), and every such window is answered with exactly that
  part of the log if and only if no stored change lies behind the edge
  (`UnsetStart.UnsetAnswersExactly`). An operation upsets that exactly when it stores a
  transaction anew behind the edge, or first opens coverage past a stored one
  (`UnsetStart.StepStaysAheadExactly`).
* A change that storage makes canonical can stop being one, as when an integer only
  changed its Go width (`Storage.MixedTypesMayNotSurvive`); exactly when a change survives
  is `Storage.SurvivesExactly`. The images a source delivers have one type a column, and
  survive: `Storage.SameTypesKeepChanges`.
* The reader accepts longer varints (`internal/store/codec.go:303-325`) and version 0
  (`internal/store/codec.go:278-292`), so decoding is not injective on bytes:
  `CodecProps.DecodingIsNotInjective`, `CodecForms.OlderVersionIsRead`. These two are all:
  `CodecForms.RowReencodesExactly`.
* A heartbeat moves the upper edge to the clock (`internal/source/mysql/assemble.go:76-79`),
  so nothing is claimed about everything up to that edge being stored.

## Model

| member | source | states |
|---|---|---|
| Change.ExactEquality | internal/reverse/reverse.go:82-84 | on the values MySQL stores, comparing values as the engine does is equality |
| Numbers.ScanRaw | internal/change/raw.go:16-56 | the scanner's index loops accept exactly the numbers |
| Numbers.ValidRawIsTheGrammar | internal/change/raw.go:16-56 | what is accepted unquoted is exactly sign, digits, optional fraction and exponent, nothing else |
| Numbers.FormatIntReadsBack | internal/reverse/literal.go:28-48 | an integer's text is a plain number and reads back as that integer |
| Literal.ScanSafe | internal/reverse/literal.go:107-115 | the byte loop decides that text means the same quoted under every sql_mode and charset |
| Literal.TextIsWritable | internal/reverse/literal.go:84-120 | text and bytes, quoted or in hex, are literals that read back as the original bytes |
| Literal.LiteralDenotes | internal/reverse/literal.go:17-80 | the text of every value is the text of the literal that denotes it |
| Literal.LiteralKeepsTheValue | internal/reverse/literal.go:17-80 | values of one column whose literals are alike are stored alike: the same integer, float, number text, bytes in either printed form, or time to the microsecond |
| Reverse.PrimaryKeyIndexes | internal/reverse/reverse.go:146-154 | exactly the positions of the key columns, in order |
| Reverse.Predicate | internal/reverse/reverse.go:124-139 | one column's predicate: IS NULL for NULL, equality otherwise, an error for what cannot be rendered |
| Reverse.WhereClause | internal/reverse/reverse.go:117-142 | the key's columns, or every column without a key, joined by AND; the first failure is the answer |
| Reverse.DeleteRow | internal/reverse/reverse.go:28-34 | an insert is reversed by the delete that the inverse specification gives |
| Reverse.UpdateRow | internal/reverse/reverse.go:43-77 | an update is reversed by setting back the changed columns that can be written, and its two refusals |
| Reverse.InsertRow | internal/reverse/reverse.go:87-110 | a delete is reversed by inserting every column that can be written |
| Reverse.Statement | internal/reverse/reverse.go:12-25 | the statement or the error for every change, shapes validated first |
| Reverse.Plan | internal/reverse/plan.go:26-48 | the backward loop builds the reversals newest first and stops at the first failure |
| Reverse.PlanIsAllOrNothing | internal/reverse/plan.go:24-47 | a plan fails exactly when some row change has no inverse, and otherwise has one reversal for each row change |
| SqlReading.IdentIsNext | internal/reverse/reverse.go:160-162 | a quoted name, whatever is in it, is the one identifier token of that name |
| SqlReading.StringIsNext | internal/reverse/literal.go:84-89 | a quoted string without backslashes is one token denoting it, under both settings |
| SqlReading.HexIsNext | internal/reverse/literal.go:118-120 | a hexadecimal literal is one token denoting the original bytes |
| SqlReading.StatementReadsBack | internal/reverse/reverse.go:28-162 | the text of any statement over literals that read back is read as that statement alone |
| StatementText.ReversalReadsBack | internal/reverse/reverse.go:12-162 | for all names and values and both settings of NO_BACKSLASH_ESCAPES, the reversal's text is read as exactly the intended inverse |
| Undo.WhereFinds | internal/reverse/reverse.go:117-142 | the predicate of a row image holds of exactly the rows with its key, or exactly the equal rows without one |
| Undo.SetsRebuild | internal/reverse/reverse.go:43-77 | assigning the listed before values to the after image rebuilds the before image, computed columns included |
| Undo.InsertRebuilds | internal/reverse/reverse.go:87-110 | inserting the listed values rebuilds the deleted row, computed columns included |
| Undo.ChangeIsUndone | internal/reverse/reverse.go:12-142 | on any table, the inverse of a change has one outcome: the table before it, one row affected |
| Undo.StepIsUndone | internal/reverse/reverse.go:12-142 | on a whole database, the same, and no other table moves |
| Undo.PlanFromUndoes | internal/reverse/plan.go:26-48 | the reversals of the events after any point lead from the end back to the state at that point |
| Undo.PlanUndoesRun | internal/reverse/plan.go:17-48 | every execution of the plan returns the database to its start, each statement affecting exactly one row |
| Undo.FilteredPlanUndoesSelected | internal/change/filter.go:27-55 | the plan of the events a table filter keeps restores the selected tables and leaves the others as they are |
| LaterWrites.ReversalKeepsLaterWrites | internal/reverse/reverse.go:36-77 | reversing an update on a keyed table affects that row alone, whatever later writes did to other columns; refused only when the key was taken |
| LaterWrites.RestoredKeepsTheRest | internal/reverse/reverse.go:36-77 | changed columns return to their before values and every other writable column keeps its current one |
| LaterWrites.ReversalCommutesWithWrite | internal/reverse/reverse.go:36-77 | writing elsewhere in the row and then reversing reaches the table that reversing and then writing does |
| CodecReader.Reader.NextByte | internal/store/codec.go:294-301 | takes one byte from what is left, or reports truncation |
| CodecReader.Reader.Uvarint | internal/store/codec.go:303-313 | reads a base-128 number, refusing truncation and anything over 64 bits |
| CodecReader.Reader.Varint | internal/store/codec.go:315-325 | reads a zigzag number |
| CodecReader.Reader.NextBytes | internal/store/codec.go:329-336 | takes n bytes or reports truncation, never past the end |
| CodecReader.Reader.LenPrefixed | internal/store/codec.go:339-345 | takes a length and that many bytes |
| CodecReader.Reader.CheckVersion | internal/store/codec.go:278-292 | accepts every version up to the known one, 0 included, and refuses newer ones |
| CodecReader.Reader.NextValue | internal/store/codec.go:348-445 | decodes one tagged value, or says what is wrong with it |
| CodecReader.DecodeRow | internal/store/codec.go:174-203 | the decoding loop computes the parse of the whole record |
| CodecReader.DecodeColumns | internal/store/codec.go:228-266 | the same for column lists |
| CodecReader.EncodeRow | internal/store/codec.go:68-157 | the encoding loop computes the encoding, or the first value's error |
| CodecReader.EncodeColumns | internal/store/codec.go:206-225 | the same for column lists |
| Codec.LimitIs64Bits | internal/store/codec.go:303-313 | the overflow rule over ten bytes is exactly the 64-bit bound |
| CodecProps.UintReadsBack | internal/store/codec.go:163-165 | every unsigned 64-bit number reads back |
| CodecProps.IntReadsBack | internal/store/codec.go:159-161 | every signed 64-bit number reads back, both zigzag limits included |
| CodecProps.RowReadsBack | internal/store/codec.go:68-203 | every encoded row decodes to itself in canonical form |
| CodecProps.ColumnsReadBack | internal/store/codec.go:206-266 | every encoded column list decodes to itself |
| CodecProps.RowsArePrefixFree | internal/store/codec.go:174-203 | no accepted row record is a proper prefix of another |
| CodecProps.ColumnListsArePrefixFree | internal/store/codec.go:228-266 | no accepted column record is a proper prefix of another |
| CodecProps.CutOrPaddedRowIsRefused | internal/store/codec.go:174-203 | every strict prefix and every non-empty extension of an encoded row is refused |
| CodecProps.CutOrPaddedColumnsAreRefused | internal/store/codec.go:228-266 | the same for column lists |
| CodecProps.AcceptedRowIsStorable | internal/store/codec.go:174-203 | whatever bytes are accepted give fewer values than bytes, and the result encodes and decodes to itself |
| CodecProps.AcceptedColumnsAreStorable | internal/store/codec.go:228-266 | the same for column lists, two bytes at least for each column |
| CodecProps.DecodingIsNotInjective | internal/store/codec.go:303-313 | two different records that decode to one row |
| CodecForms.VarintForm | internal/store/codec.go:303-313 | an accepted varint is the one the encoder writes if and only if it is one byte or its last byte is not 0 |
| CodecForms.RowReencodesExactly | internal/store/codec.go:174-203 | an accepted row record is what its row encodes to if and only if its version is the written one and every varint in it is as short as can be |
| CodecForms.ColumnsReencodeExactly | internal/store/codec.go:228-266 | the same for column lists |
| CodecForms.OlderVersionIsRead | internal/store/codec.go:278-292 | whatever follows the version, a record of version 0 decodes as the same record of version 1 does, to the same row, columns or error |
| CodecProps.EncodesWhatRenders | internal/store/codec.go:85-157 | a row can be stored exactly when every value can be rendered |
| Storage.EventReadsBack | internal/store/append.go:100-127 | a stored change reads back as itself, canonical, under its transaction's time and server |
| Storage.CanonKeepsValue | internal/store/codec.go:85-157 | a stored value has the literal, or the error, of the original |
| Storage.StorageKeepsStatement | internal/store/append.go:302-323 | a change stored and read back calls for exactly the statement or error of the original |
| Storage.SurvivesExactly | internal/store/codec.go:85-157 | a storable change, read back, calls for the canonical form of its inverse, or has its error, if and only if no changed column has images that become equal in canonical form, up to the errors raised elsewhere |
| Storage.SameTypesKeepChanges | internal/store/codec.go:85-157 | images of one type a column lose no change |
| Storage.MixedTypesMayNotSurvive | internal/store/codec.go:85-157 | that condition is needed: a storable change of integer width alone calls for a statement before storage and for none after |
| StoreTables.Tables.AppendTransaction | internal/store/append.go:27-85 | encodes all, then stores once and moves checkpoint and coverage together; a failure changes nothing |
| StoreTables.Tables.MarkOpen | internal/store/coverage.go:49-57 | opens coverage only the first time |
| StoreTables.Tables.SetMaxStaleness | internal/store/coverage.go:60-69 | records the allowance and nothing else |
| StoreTables.Tables.SetRetention | internal/store/prune.go:19-28 | records the retention and nothing else |
| StoreTables.Tables.AddGap | internal/store/coverage.go:77-85 | records one more gap |
| StoreTables.Tables.AddMiss | internal/store/coverage.go:93-101 | records one more miss |
| StoreTables.Tables.MoveHighWater | internal/store/coverage.go:318-332 | the high-water mark moves, never back |
| StoreTables.Tables.PruneTables | internal/store/prune.go:42-95 | deletes transactions with their rows, gaps and misses behind the edge and moves the edge, in one step |
| StoreTables.Tables.Events | internal/store/append.go:224-271 | the row loop returns the matching changes in source order, or the refusal |
| StoreTables.Tables.EachEvent | internal/store/append.go:347-393 | hands the matching changes to any visitor newest first, none when coverage refuses |
| StoreTables.Tables.ReadPage | internal/store/page.go:45-113 | the clamped, cursor-bounded row loop returns the page |
| StoreTables.Tables.Changes | internal/api/changes.go:59-84 | the reply, with a next cursor exactly when the page is full |
| StoreTables.Tables.CheckIntegrity | internal/store/integrity.go:43-71 | counts transactions without rows and compares the checkpoint with the newest change |
| StoreLog.NewTransaction | internal/store/append.go:59-79 | storing a new transaction appends exactly its restored changes to what the store reads, and nothing read before moves |
| StoreLog.PruneKeepsRest | internal/store/prune.go:59-95 | pruning removes from what the store reads exactly the changes behind the edge, and every row keeps its transaction |
| StoreRuns.InvAlwaysHolds | internal/store/append.go:27-85 | in every run the tables are sound, agree with the log from the lower edge on, and lost nothing at or after it |
| StoreRuns.AnswerIsTheLog | internal/store/append.go:212-271 | an accepted window with a stated start is answered with exactly the first-delivery log filtered by it, in order |
| StoreRuns.AnswerFromTheEdge | internal/store/append.go:212-271 | without a stated start, the answer and the filtered log agree from the lower edge on |
| UnsetStart.UnsetAnswersExactly | internal/store/append.go:212-271 | when everything can be asked for, every accepted window without a stated start is answered with exactly the filtered log from the lower edge on, if and only if no stored change lies behind that edge |
| UnsetStart.StepStaysAheadExactly | internal/store/append.go:59-79 | while no stored change lies behind the edge, an operation keeps it so if and only if it neither stores a transaction anew behind it nor first opens coverage past a stored one |
| UnsetStart.RunStaysAhead | internal/store/append.go:59-79 | so in every run of operations that do neither, no stored change ever lies there |
| UnsetStart.UnsetMayAnswerMore | internal/store/prune.go:59-95 | a change stored, pruned and delivered again is in the answer without a stated start and not in the log from the edge |
| StoreRuns.AcceptedWindowHasNoHoles | internal/store/coverage.go:200-261 | an accepted window holds no instant of any gap or miss ever recorded, pruned ones included |
| StoreRuns.AcceptedExactly | internal/store/coverage.go:200-261 | a window is accepted if and only if the collector is live, the stated bounds are covered, and no instant of it lies in a gap or a miss |
| StoreRuns.HighWaterIsTheFurthest | internal/store/append.go:161-174 | the high-water mark is the furthest instant any commit or idle signal reached, in whatever order they came |
| StoreRuns.OpenedOnce | internal/store/coverage.go:43-57 | opening an opened store again changes nothing |
| StoreRuns.CoverageNeverMovesBack | internal/store/coverage.go:43-57 | once coverage was opened, neither edge moves back in any run |
| StoreRuns.PruneMovesBackExactly | internal/store/coverage.go:113-132 | pruning moves the lower edge back if and only if coverage was never opened and the retention edge precedes the earliest change held |
| StoreRuns.PruneAnswersExactly | internal/store/prune.go:70-89 | pruning turns a refused window with a stated start into an answered one if and only if coverage was never opened, the retention edge is at or before the start, the earliest change held is after it, and nothing else refuses |
| StoreRuns.PruneMayAnswerMore | internal/store/prune.go:70-89 | a run reaches a store where that happens |
| StoreRuns.PrunedHolesWereThere | internal/store/prune.go:70-89 | what a prune leaves of gaps and misses on a window was on it before |
| Integrity.IntegrityNeverReports | internal/store/integrity.go:43-68 | in every state a collector reaches neither check reports, and no row is without its transaction |
| Integrity.ProblemsExactly | internal/store/integrity.go:43-68 | for any state, nothing is reported exactly when every transaction has a row and the checkpoint is not ahead |
| Paging.EffectiveLimit | internal/api/changes.go:102-110 | a limit in range stands, one of zero or less comes to the default, and one above the most a page holds comes to that |
| Paging.PageIsNewestFirst | internal/store/page.go:75-113 | a page is the first part of the matching changes past the cursor, newest first |
| Paging.NewestFirstReversesEvents | internal/store/page.go:82-86 | with no cursor, newest first is the reverse of what Events returns |
| Paging.CursorDropsTaken | internal/store/page.go:82-86 | a cursor at the k-th change leaves exactly the changes after it |
| Paging.FollowingEnds | internal/api/changes.go:75-81 | following the cursor ends: full pages times the limit never exceed the window |
| Paging.FollowingReadsTheWindow | internal/api/changes.go:59-81 | followed to the end with anything but prunes in between, the pages are the reverse of Events at the first page, under strictly decreasing ids |
| ReadOnly.WantedNames | internal/change/readonly.go:13-21 | the names asked for, trimmed and folded, blank ones dropped |
| ReadOnly.MarkOne | internal/change/readonly.go:23-46 | one change marked, on a copy made only when something is marked |
| ReadOnly.MarkReadOnly | internal/change/readonly.go:12-47 | every change is marked as if alone, and no slice that existed before is written |
| ReadOnly.MarkingsAdd | internal/change/readonly.go:30-41 | marking by one list and then another is marking by both, in either order, and no flag is ever taken away |
| ReadOnly.MarkColumns | internal/source/mysql/source.go:609-615 | the two loops flag exactly the columns named, folding case |
| ReadOnly.MarkGenerated | internal/source/mysql/source.go:603-617 | in place, a column is flagged exactly when it was, or when some change over the same slice has it computed |
| ReadOnly.MarkGeneratedByTable | internal/source/mysql/source.go:603-617 | when slices are shared only within a table, that is the same as marking each change by itself |
| Script.ScanPrintable | internal/script/render.go:161-171 | the rune loop decides valid UTF-8 of printable runes |
| Script.MakeCommentSafe | internal/script/render.go:117-137 | the backing-off loop computes the comment text |
| Script.Render | internal/script/render.go:34-78 | the whole script from a finished plan, line by line |
| Script.WriteReversal | internal/script/render.go:81-98 | one statement under its provenance |
| Script.WriteSchemaWarning | internal/script/render.go:180-196 | the warning and one line for each schema change, or nothing |
| Script.Writer.Open | internal/script/writer.go:34-53 | writes the opening lines the first time only |
| Script.Writer.Write | internal/script/writer.go:56-60 | writes one reversal and counts it |
| Script.Writer.Close | internal/script/writer.go:67-75 | ends the script with the count, or says that nothing matched |
| ScriptReading.CutIsNear | internal/script/render.go:124-134 | the cut leaves valid UTF-8 and is at most three bytes short of the cap |
| ScriptReading.CommentSafeIsOneLine | internal/script/render.go:100-137 | whatever the text, a comment is one line of valid UTF-8 |
| ScriptReading.CommentSafeShows | internal/script/render.go:117-137 | short printable text is shown whole, long text up to the cut, anything else only by its size |
| ScriptReading.RenderedReadsBack | internal/script/render.go:34-98 | a rendered script is read as the session settings and the plan's statements, an empty plan as nothing |
| ScriptReading.StreamedReadsBack | internal/script/writer.go:34-75 | the same for a streamed script |
| ScriptReading.ScriptReadsBack | internal/script/render.go:62-75 | for all texts and both settings of NO_BACKSLASH_ESCAPES, a script is the settings and the inverses of the row changes, newest first |
| ScriptReading.UnfinishedReadsExactly | internal/api/revert.go:74-86 | the same for any unfinished script and any error |
| ScriptReading.TableNameMayEndTheComment | internal/reverse/reverse.go:63-68 | the error of an update that changed nothing, of a table whose name holds a newline, leaves its comment |
| Revert.MarkAlone | internal/api/revert.go:65-66 | one change in a slice of its own, marked |
| Revert.WriteReversalOf | internal/api/revert.go:60-73 | skips a schema change, else marks, reverses and writes, or fails without writing |
| Revert.ReverseRow | internal/api/revert.go:60-73 | one row of the second pass: passed over, written reversed, or the failure |
| Revert.ReverseRows | internal/store/append.go:368-392 | the descending row loop writes exactly what visiting the rows reverses |
| Revert.StreamReversals | internal/api/revert.go:60-73 | the second pass writes exactly what visiting the window reverses, and nothing when coverage refuses |
| Revert.HandleRevert | internal/api/revert.go:36-89 | refuses before writing, or streams a complete script, or one that ends with the error it stopped at |
| Revert.EachIsFold | internal/store/append.go:347-393 | visiting a window is folding, newest first, over what Events returns for it |
| Revert.StreamIsPlan | internal/api/revert.go:60-73 | streaming emits exactly the plan, fails exactly when reading or planning does, then with exactly the plan of the changes newer than the failing one, and emits nothing when refused |
| Revert.RevertIsThePlan | internal/api/revert.go:36-89 | the response is a refusal, the streamed script of the plan, or the script of the changes newer than the failing one and the error, exactly as reading and planning decide |
| Revert.CompleteRevertReadsBack | internal/api/revert.go:57-86 | a completed revert is read as the session settings and the inverses of the window's row changes |
| Revert.IncompleteReadsExactly | internal/api/revert.go:74-86 | an incomplete response is read as the session settings and the inverses newer than the failing one if and only if nothing after the first line of the error means anything, as it never does in an error of one line |
| Assembler.Assembler.HandleEvent | internal/source/mysql/assemble.go:67-143 | the fields after one event, and what it reports, for every kind of event |
| Assembler.Assembler.AppendRows | internal/source/mysql/assemble.go:145-167 | rows join the transaction under the pending statement; what cannot be read is a miss |
| Assembler.Assembler.CommitRows | internal/source/mysql/assemble.go:169-190 | a commit reports the gathered rows under their identity and clears the assembler |
| Assembler.Assembler.Clear | internal/source/mysql/assemble.go:206-212 | everything but the file is cleared |
| Assembler.Assembler.Unwrap | internal/source/mysql/assemble.go:220-238 | a payload's events are handled in order and their outcomes merged, to any nesting |
| Assembler.Assembler.HandleQuery | internal/source/mysql/assemble.go:240-291 | begin, commit, rollback, schema change, refusal and bookkeeping |
| Assembler.EventIsItsLeaves | internal/source/mysql/assemble.go:214-238 | handling an event with payloads nested to any depth is handling its leaves one by one: same state, same refusal, merged outcomes |
| Assembler.LastTransactionWins | internal/source/mysql/assemble.go:227-229 | of several transactions in a payload the last is reported |
| Assembler.CompressedIsPlain | internal/source/mysql/assemble.go:214-238 | a payload that completes one transaction reports it, leaves the state its events one by one would, and reports the last of their misses |
| Assembler.HandleReports | internal/source/mysql/assemble.go:145-167 | the miss an event reports does not depend on the state of the assembler |
| Assembler.LastMissWins | internal/source/mysql/assemble.go:230-232 | a payload, nested to any depth, reports the last miss among its leaves |
| Assembler.MissesAreCoveredExactly | internal/source/mysql/assemble.go:230-232 | an event's report covers every miss among its leaves if and only if no miss is followed by one at another instant |
| Assembler.PayloadMayLoseAMiss | internal/source/mysql/assemble.go:230-232 | a payload of one transaction and unreadable changes at 10 and at 20 reports 20 alone |
| Binlog.MiddleYields | internal/source/mysql/assemble.go:145-167 | partway through a transaction the assembler has reported the schema changes and holds the readable changes so far, each under the annotation in force |
| Binlog.WrappedYields | internal/source/mysql/assemble.go:214-238 | in a payload, events leave the state they would one by one, and the last of what they report is reported |
| Binlog.ItemYields | internal/source/mysql/assemble.go:67-291 | reading an item of the log from rest, schema changes inside a transaction included, reports with each event exactly what it commits under the GTID in force, and comes to rest |
| Binlog.RowsAreOwnExactly | internal/source/mysql/assemble.go:192-204 | the rows of a transaction are reported under its own identity if and only if no GTID is left over that it does not replace, or the one left over reads as the place of its commit |
| Binlog.SharedIdentityExactly | internal/source/mysql/assemble.go:272-287 | a schema change inside a transaction and the rows beside it go under one identity if and only if a GTID is in force or both commit at one position |
| Binlog.AllIsReportedExactly | internal/source/mysql/assemble.go:227-229 | everything a transaction commits is reported if and only if it is not in a payload or commits once at most |
| Binlog.StatementsAreOwnExactly | internal/source/mysql/assemble.go:145-167 | every readable change carries the statement that produced it if and only if no unreadable rows event under an annotation is followed by a readable one before the next annotation |
| Binlog.StatementMayBeAnothers | internal/source/mysql/assemble.go:149-156 | rows without an annotation carry the statement of rows before them that could not be read |
| Binlog.ReportsAllExactly | internal/source/mysql/assemble.go:149-156 | a transaction reports each of its unreadable changes if and only if it is not wrapped or they all stand at one instant |
| Assembler.PlaceTellsApart | internal/source/mysql/assemble.go:199-204 | an identity built from a file and a position determines both |
| Collector.IdentitiesDiffer | internal/source/mysql/assemble.go:192-204 | no two events of a log leave transactions of one identity |
| Collector.EachOnce | internal/store/append.go:46-58 | what should be stored of a log prefix holds each identity once |
| ExactlyOnce.StepStaysOk | internal/source/mysql/source.go:369-522 | every step keeps the store handed exactly a log prefix and the misses it reports, now and after every earlier commit, and the connection within it |
| ExactlyOnce.RedeliveryIsConsistent | internal/store/append.go:21-26 | what is delivered again is the same transaction |
| ExactlyOnce.ExactlyOncePrefix | internal/source/mysql/source.go:284-522 | over every run the store was handed exactly what a prefix of the log's events commits, each transaction once, in order, and every miss those events report; the prefix reaches past the checkpoint and as far as the connection has read |
| ExactlyOnce.StoreHoldsThePrefix | internal/store/append.go:27-85 | while nothing is pruned the tables hold exactly that prefix and its changes |
| ExactlyOnce.AnswersAreTheLogPrefix | internal/store/append.go:224-271 | an accepted window with a stated start is answered with exactly the changes of such a prefix |
| ExactlyOnce.UnreadableIsRecorded | internal/source/mysql/source.go:458-463 | with the misses of a log prefix noted, the instant of every unreadable change in it is among them, if its transaction is not wrapped or has its unreadable changes at one instant |
| ExactlyOnce.UnreadableChangesAreRefused | internal/source/mysql/source.go:458-463 | over every run, no accepted window holds the instant of an unreadable change of the stored prefix whose transaction is not wrapped or has its unreadable changes at one instant |
| ExactlyOnce.PayloadMayHideAMiss | internal/source/mysql/assemble.go:230-232 | where a payload loses a miss, the window on it is answered, and would be refused with both misses recorded |
| ExactlyOnce.NoGapIsRecorded | internal/source/mysql/source.go:436-451 | no connection step of any run writes a gap |
| ExactlyOnce.IntegrityHoldsThroughout | internal/store/integrity.go:43-68 | in every state of every run the integrity checks report nothing |
| ExactlyOnce.FirstCommitStarts | internal/source/mysql/source.go:464-486 | so is a store after its first commit, when the events before it leave nothing else and their misses are recorded |
| ExactlyOnce.NothingStoredStarts | internal/source/mysql/source.go:499-522 | a store that holds nothing, whatever was set up before, is a state a run can start from, and its first connection reads the log from the start |
| SchemaInside.RowsAreStoredExactly | internal/store/append.go:46-58 | handed what a transaction that is not in a payload commits, the store keeps its rows if and only if no schema change inside shares their identity, and its checkpoint moves past them either way |
| SchemaInside.LastIsStoredExactly | internal/store/append.go:46-58 | of transactions handed over one after another the last is kept if and only if none before it has its identity |
| SchemaInside.ResumableExactly | internal/source/mysql/source.go:499-522 | a place inside a transaction is read on from as if from its start if and only if no annotation is in force and no readable rows came before |
| Witness.RowsMayBeLost | internal/source/mysql/assemble.go:272-287 | a table made and filled in one transaction with a GTID: the schema change is stored and the row is not, with no gap and no miss, under a checkpoint past both |
| Witness.LeftOverGtidMayLoseRows | internal/source/mysql/assemble.go:192-204 | the same for the rows of an anonymous transaction after a schema change with a GTID |
| Witness.ResumeInsideMayLose | internal/source/mysql/source.go:499-522 | rows, a schema change, and the end of their transaction: read on from the schema change, the end commits nothing |
| Witness.RollbackToKeepsRows | internal/source/mysql/assemble.go:289-290 | rolling back to a savepoint leaves the gathered rows |
| Streaming.KeepWanted | internal/source/mysql/source.go:583-595 | the in-place filter leaves exactly the wanted events at the front, in order |
| Streaming.MarkComputedColumns | internal/source/mysql/source.go:603-617 | marks each kept event and touches no other |
| Streaming.CollectTransaction | internal/source/mysql/source.go:464-469 | a transaction as it is stored: filtered, then marked |
| Streaming.Follower.NoteGap | internal/source/mysql/source.go:439-451 | the first event after a resume records the gap it reveals |
| Streaming.Follower.Write | internal/source/mysql/source.go:458-493 | what an event's outcome writes, in order, and whether the store took it |
| Streaming.Follower.Take | internal/source/mysql/source.go:421-494 | one turn of the loop: gap, assembler, writes, refusal |
| Streaming.Follower.Stream | internal/source/mysql/source.go:369-495 | one connection from resume point to end writes what feeding its events does |
| Streaming.Follower.Follow | internal/source/mysql/source.go:421-495 | the loop over the events of a connection writes what feeding them does and ends as that ends |
| Streaming.Follower.Run | internal/source/mysql/source.go:284-333 | reconnects until stopped or refused, and a purged resume point becomes a gap and a fresh start: the state and verdict of RunWith, of which LoopIsARun and what follows from it are proved |
| Streaming.StreamIsARun | internal/source/mysql/source.go:369-522 | a stream that delivers nothing, or the log with heartbeats and other bookkeeping at any moment, from at or before the checkpoint or from the start while there is none, writes what a run of the proved steps does |
| Streaming.LoopIsARun | internal/source/mysql/source.go:284-333 | any number of such streams, each from at or before the checkpoint then stored, leave the store as a run of the proved steps does |
| Streaming.LoopKeepsThePrefix | internal/source/mysql/source.go:284-333 | so after the loop, whatever the store went through before, it was handed exactly what a log prefix past its checkpoint commits, each transaction once |
| Streaming.LoopAnswersThePrefix | internal/source/mysql/source.go:284-333 | and a window accepted after the loop is answered with exactly the changes of that prefix |
| Witness.ARedeliveryExists | internal/source/mysql/source.go:284-333 | a loop that delivers the whole log twice, with heartbeats, from an empty store on, meets the assumptions |
| Recovery.IntendedIsTyped | internal/reverse/reverse.go:12-142 | a statement whose values are understood, read from its literals, is that statement over values |
| Separate.OutsideFirst | internal/change/filter.go:27-55 | when no change outside a window touches what one inside touched before, the run can be had with the changes outside first and those inside after |
| Separate.SeparateIsUndone | internal/reverse/plan.go:17-48 | every execution of the plan of such a window leads to the database that the changes outside alone lead to |
| Separate.PathIsOne | internal/reverse/plan.go:17-48 | and that is one database: changes lead from a state to one state at most |
| Recovery.ScriptIsStatements | internal/script/render.go:62-75 | a script of the session settings and some statements has exactly the outcomes of the statements |
| Recovery.WindowIsUndone | internal/reverse/plan.go:17-48 | the script of a window that reaches from the p-th change on, executed after n changes, gives the selected tables their rows of before the p-th and keeps the others |
| Recovery.ResponseUndoes | internal/api/revert.go:36-89 | a request answered with such a window gets a complete response whose script is read and does that |
| Recovery.RevertRestores | internal/api/revert.go:36-89 | end to end: over every run of the collector on the log of a run of changes, the revert of an accepted window completes, is read as SQL under both settings of NO_BACKSLASH_ESCAPES, and its only outcome takes the selected tables back to before the window |
| Recovery.RevertTakesOut | internal/api/revert.go:36-89 | the same for a window anywhere in the log, when no change outside touches what one inside touched before: the only outcome is what the changes outside make of the database |
| Witness.TheGuaranteeApplies | internal/api/revert.go:36-89 | every assumption of the two is met at once, by a log with a schema change and a row change in one transaction |
| Recovery.StoredRun | internal/store/append.go:302-323 | with canonical images, a run of the changes a log commits is a run of the changes the store gives back |
| Recovery.AServerReads | internal/reverse/literal.go:17-80 | where each column holds canonical values of one type, there is a reading of literals that takes every one for the value it was printed from |

## Left out

- Undo.PlanUndoesRun: collations, float comparison, triggers, foreign-key cascades, AUTO_INCREMENT and what a schema change does to rows are outside the row model; a column an INSERT does not name takes NULL before computed columns are recomputed.
- StatementText.ReversalReadsBack: floats that are not finite are excluded; MySQL stores none, and the engine's text for one is not SQL.
- ExactlyOnce.ExactlyOncePrefix: the log is what the server writes from where the first stream of an empty store finds it; a stream that ends before anything is stored is followed by one from the server's then current position with no gap (`internal/source/mysql/source.go:514-522`), and after a purge the gap's end is taken before the new start is known (`internal/source/mysql/source.go:308`), so the code promises no more there. `Streaming.Follower.Run` models both.
- ExactlyOnce.ExactlyOncePrefix: a transaction that holds a schema change carries no GTID and is not in a payload; otherwise `Witness.RowsMayBeLost` and `Binlog.AllIsReportedExactly` say what is lost, and `SchemaInside.RowsAreStoredExactly` exactly when.
- Streaming.LoopIsARun: for attempts that are not purged, for the same reason.
- Recovery.RevertRestores: the run is of the changes as the store gives them back and the request marks them; `Recovery.StoredRun` carries it over from the changes as they were logged. The window is one whose instants pick out the changes from some point on; any other is the subject of `Recovery.RevertTakesOut`.
- Recovery.RevertTakesOut: in a table without a key any two changes count as touching, so a window there has to be followed by nothing outside it.
- ExactlyOnce.UnreadableChangesAreRefused: of a wrapped transaction with unreadable changes at different instants only the last is promised, because only that is reported.
- ExactlyOnce.StoreHoldsThePrefix: speaks of identities, times, order and changes; the row ids are the subject of `Paging`.
- StoreRuns.AcceptedExactly: for windows whose start is not after their end and gaps likewise; for an inverted window the code compares the bounds all the same.
- Paging.FollowingReadsTheWindow: no prune happens while the cursor is followed, because a prune that removes the newest row lets its id be used again.
- Assembler.Assembler.HandleEvent: what counts as a schema change (`internal/change/ddl.go:19-33`) and what a rows event holds (`internal/binlog/convert.go:18-76`) are parameters; only whether it can be read, and how its changes are stamped, is modelled.
- Streaming.Follower.Stream: attaching, GTID set parsing and the driver's errors are an input; a clock reading is part of the event it stamps.
- Streaming.CollectTransaction: marks each change of a transaction on a slice of its own; that shared slices come out the same is `ReadOnly.MarkGeneratedByTable`.
- Script.Writer.Write: flushing and write errors; the lines are a sequence, and a line's text is what is written.
- Revert.HandleRevert: the two passes read one state of the store, and the wording of an error is a parameter, of which nothing is assumed.
- ReadOnly.WantedNames: trimming and case folding are those of ASCII.
- CodecReader.EncodeRow: a nil and an empty byte slice are one value here.
- SQLite, `PRAGMA integrity_check`, file locks, migrations and the binding of a store to a server.
- HTTP routing, JSON, tokens, command-line flags, logging and signal handling.
- `ParseTimeAt`, `Display`, the status report and the lookup of one change by id: nothing that spans operations.
- The wording of messages; the model keeps which error it is.
