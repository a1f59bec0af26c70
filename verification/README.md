# sql-cli: a verified model of streaming, transactions, SQL rewriting and log masking

This project models the parts of sql-cli that decide whether rows arrive, whether a batch is applied, and what
SQL text reaches the driver, and proves properties of them over every input and every run.

- **Streams.** `StreamResult.dfy` holds the iterator and its channel as classes, `StreamMachine.dfy` the producer
  goroutine, the consumer and the context as one state machine, `StreamTheorems.dfy` and `StreamOutcomes.dfy` what holds
  over whole runs, and `SessionMachine.dfy` the concurrency slots under any number of interleaved streams.
- **Transactions and batches.** `Transaction.dfy` is the wrapper with its auto-rollback goroutine; its methods
  admit any number of environment steps between two of their own. `TxClients.dfy` lets any number of threads share one
  transaction. `Batch.dfy` is the batch runner on top, `Guard.dfy` the guards in front of a statement.
- **SQL text.** `Lexer.dfy` is a plain automaton for quotes, comments and separators; `Splitter.dfy` is the loop of
  `SplitStatements` proved against it, `SplitTheorems.dfy` its round trips, `SplitSyntax.dfy` its comments and literals.
  `Keywords.dfy` finds clause keywords, `Itoa.dfy` prints numbers, `Rewrite.dfy` appends LIMIT and OFFSET, `Paging.dfy`,
  `QueryTexts.dfy` and `Queries.dfy` are the query paths and the walk through pages.
- **Masking.** `Masker.dfy` is the two-pass log masker, compared with the quote scan of `Keywords.dfy`.

`dafny verify dfyconfig.toml` checks everything.

## How to read the model

A state machine gives each synchronisation point of the Go program one step: a channel operation, a mutex section, a call
on the driver, a deferred action. A `select` offers each of its ready cases. A call that blocks has no step. Contexts and
timeouts are events that may happen at any point. In the methods of `Transactions.Transaction` the same events happen
inside `Interfere`, whose contract allows every sequence of them, so a method's postcondition holds for every
interleaving. A mutex section is one step; the goroutine's own section is split, because its rollback is visible to
statements that are already past the mutex.

A channel that carries no data is counted by how often it was closed; a second close, and a send on a closed row channel,
are the panics that `StreamMachine.Panics` names. Go's 64-bit `int` is `Itoa.Int64`. A run-time panic in a function is the
value `Panicked`.

The database is the sequence of statements it has applied for good. A statement that fails adds nothing; a failed commit
adds nothing; a transaction ends once. For queries it is a function from SQL text to a reply.
In `Batch.dfy` the driver's answers to begin, to each statement by its position and to commit are inputs, so that the two
batch modes can be compared on the same driver; what the timeout goroutine and the contexts do stays free.

## Model

| member | source | states |
|---|---|---|
| `StreamResults.StreamResult.Next` | pkg/result/result.go:82-94 | a receive in place: takes the oldest buffered row and counts it, closes the iterator on a closed empty channel, does nothing once closed |
| `StreamResults.StreamResult.Close` | pkg/result/result.go:116-123 | closes `done` only on the call that closes the iterator |
| `StreamResults.StreamResult.Err` | pkg/result/result.go:102-110 | the producer's error first, then an error carried by the current row |
| `StreamResults.StreamResult.SetProducerDone` | pkg/result/result.go:149-151 | closes `prodDone`, and needs it open |
| `StreamResults.StreamResult.SetError` | pkg/result/result.go:131-133 | replaces the error and nothing else |
| `StreamResults.StreamResult.SetColumns` | pkg/result/result.go:126-128 | replaces the columns and nothing else |
| `StreamMachine.StepKeepsInv` | pkg/db/stream.go:66-132 | every step of producer, consumer or context keeps the invariant and never panics |
| `StreamMachine.ReachableInv` | pkg/db/stream.go:57-143 | the invariant holds in every state that any run of a stream reaches |
| `StreamTheorems.RowsArriveInOrder` | pkg/db/stream.go:105-132 | delivered rows are a prefix of the query's rows with Index equal to position; a stream drained without error delivered all of them; columns are known before the first row and at every end without error |
| `StreamOutcomes.ErrorTellsWhatHappened` | pkg/db/stream.go:85-132 | after any run Err reports a failed query, failed columns, a failed scan, a failed iteration or the context's end if and only if that happened in the run, and nothing if and only if none did |
| `StreamOutcomes.EveryStreamCanEndWell` | pkg/db/stream.go:105-140 | for every query a run without cancellation exists that is drained with all rows, no error, and the producer gone |
| `StreamOutcomes.ErrorPrecedence` | pkg/result/result.go:102-110 | a stored error hides the row's; without one the current row's error is reported, and without both none |
| `StreamOutcomes.ClosedExactly` | pkg/result/result.go:82-123 | the iterator is closed if and only if Close was called or Next saw the end, and the producer is told if and only if it was not the latter |
| `StreamOutcomes.ClosedDeliversNothing` | pkg/result/result.go:82-94 | a closed iterator stays closed and delivers no row, whatever the channel still holds |
| `StreamOutcomes.ContextIsDoneExactly` | pkg/db/stream.go:71-83 | the stream's context is done if and only if it fired, or was derived for the stream and its deferred cancel has run |
| `StreamOutcomes.BlockedProducerHasFilledTheBatch` | pkg/db/stream.go:56-61 | a producer blocks only with as many rows buffered as the batch size, or 50 where that is not positive |
| `StreamTheorems.NoRunPanics` | pkg/db/stream.go:67-69 | no run closes a channel twice or sends on a closed one |
| `StreamTheorems.ShutdownIsClean` | pkg/db/stream.go:66-132 | on every exit path each signal is given at most once and in order, rows are closed before `prodDone`, and the slot comes back exactly once |
| `StreamTheorems.ResultIsFinal` | pkg/result/result.go:130-151 | once `prodDone` is closed, no later step changes error, columns or the closed result set |
| `StreamTheorems.DrainedOutcomeIsFinal` | pkg/result/result.go:81-110 | the error read after Next saw the channel closed never changes |
| `StreamTheorems.WaitReturnsBeforeRelease` | pkg/db/stream.go:67-69 | in every run, the instant Wait is let go the slot is still held and the row channel open |
| `StreamTheorems.SlotIsFreeOnExit` | pkg/db/stream.go:66-69 | behind Wait, and behind a drained iterator, the slot is free if and only if the producer has exited, which takes at most two more of its steps |
| `StreamTheorems.DrainedStreamCanHoldItsSlot` | pkg/db/stream.go:67-69 | for every query a run exists in which Wait has been let go, the iterator is drained and the slot is still held |
| `StreamTheorems.ProducerBlocksOnlyOnFullBuffer` | pkg/db/stream.go:115-126 | the producer cannot step if and only if it has exited or waits to send into a full buffer with neither Close nor the context in sight |
| `StreamTheorems.NobodyWaitsForever` | pkg/db/stream.go:115-126 | a blocked Next leaves the producer a step; a blocked producer is freed by Next, by Close and by the context |
| `StreamTheorems.EffectiveStepsDescend` | pkg/db/stream.go:105-132 | every step that does something lowers a rank of rows left to send, rows left to take and exit steps |
| `StreamTheorems.EveryRunEnds` | pkg/db/stream.go:57-140 | a run over n rows has at most 3n + 11 effective steps; one that producer and consumer cannot continue has exited, released and closed |
| `SessionMachine.Session.AcquireConcurrencySlot` | pkg/db/session.go:121-133 | grants if and only if there is no maximum or fewer slots are taken, and counts only what it grants under a maximum |
| `SessionMachine.Session.ReleaseConcurrencySlot` | pkg/db/session.go:135-142 | gives one slot back where slots are counted |
| `SessionMachine.WorldStepKeepsInv` | pkg/db/session.go:121-142 | every event on any stream of the session keeps the counter equal to the unreleased streams and within bounds |
| `SessionMachine.SlotsAreConserved` | pkg/db/stream.go:42-67 | in every history the counter is the number of accepted unreleased streams, between 0 and the maximum, each released once on exit, 0 when all have exited |
| `SessionMachine.QuietSessionIsFree` | pkg/db/stream.go:66-132 | when no stream can go on and no consumer asks, all slots are free |
| `SessionMachine.RejectionMeansFull` | pkg/db/session.go:126-129 | a call is turned away if and only if as many unreleased streams exist as the maximum allows |
| `SessionMachine.EveryCallIsAnswered` | pkg/db/session.go:121-133 | in every history each call is accepted or rejected once; without a maximum all are accepted and no slot is counted |
| `SessionMachine.NextCallIsRejectedExactly` | pkg/db/session.go:121-133 | the next call is rejected if and only if a positive maximum of streams holds its slots; a rejected call changes nothing |
| `SessionMachine.EveryHistoryEnds` | pkg/db/stream.go:57-140 | interleaved streams together take no more effective steps than the sum of their own bounds |
| `Transactions.EnvStepKeeps` | pkg/db/transaction.go:58-79 | goroutine, contexts and driver keep the lifecycle invariant and can only end the transaction and mark it rolled back |
| `Transactions.EnvRunKeeps` | pkg/db/transaction.go:58-79 | the same over any number of such steps: the committed database and a terminal wrapper never change |
| `Transactions.TimerAlwaysLeaves` | pkg/db/transaction.go:58-79 | once the status is terminal or the context has fired the goroutine always has a step towards its exit; it never keeps the mutex |
| `Transactions.AutoRollback` | pkg/db/transaction.go:58-79 | behind a timeout or a cancellation of an active transaction the goroutine can reach its exit alone, and has rolled back, database untouched, however it gets there |
| `Transactions.Transaction.MarkCommitted` | pkg/db/transaction.go:97-113 | the committing mutex section: only an active transaction is marked, and `done` closed |
| `Transactions.Transaction.MarkRolledBack` | pkg/db/transaction.go:118-134 | the rolling-back mutex section: idempotent, refused after a commit |
| `Transactions.Transaction.Commit` | pkg/db/transaction.go:137-148 | under every interleaving: nil means all pending statements were applied, an error means none; an ended wrapper answers that it is done; without a timeout or a cancellation the answer is the driver's; the wrapper is no longer active, and the underlying transaction stays open only behind a cancelled parent context |
| `Transactions.Transaction.Rollback` | pkg/db/transaction.go:151-162 | under every interleaving the database is untouched; a committed wrapper, and no other, answers that it is done, any other ends rolled back with the underlying transaction closed; nil means a call and not the goroutine marked the end, and this one closed the transaction |
| `Transactions.Transaction.Exec` | pkg/db/transaction.go:165-203 | under every interleaving: nil means the statement passed the guards and joined the pending ones last, an error adds nothing; in a transaction still alive the answer is that of guards and driver, and only a timeout or a cancellation can have ended it |
| `Transactions.ExecErrorMeaning` | pkg/db/transaction.go:165-190 | a statement is accepted if and only if the guards and the driver let it pass, and the guards answer first |
| `TxClients.StepKeepsInv` | pkg/db/transaction.go:85-162 | with any number of threads every step keeps the exclusion of end calls and the all-or-nothing data invariant |
| `TxClients.EndCallsExclude` | pkg/db/transaction.go:97-162 | the underlying Commit is called at most once and never together with a Rollback; at most one end call returns nil |
| `TxClients.AllOrNothing` | pkg/db/transaction.go:137-203 | the database holds every successful statement in order if a Commit returned nil, and its initial state otherwise |
| `TxClients.TerminalStatesAreFinal` | pkg/db/transaction.go:58-134 | a terminal status never changes, `done` is closed at most once, and stays open only after the auto-rollback |
| `TxClients.NoMoreStatementsExactly` | pkg/db/transaction.go:85-92 | no later run executes a statement if and only if the underlying transaction is closed, or none is past the active check and none can pass it |
| `TxClients.MarkStopsStatements` | pkg/db/transaction.go:97-134 | behind a terminal mark, by a caller or by the goroutine, statements can follow if and only if one was already past the check and the underlying transaction open |
| `TxClients.StatementCanOutlastTheMark` | pkg/db/transaction.go:85-92 | a statement checked before a commit was marked can still run and be committed |
| `Batch.BatchExecInTx` | cmd/cli/batch.go:33-95 | for every interleaving: all statements applied in order if no result carries an error, the initial state otherwise; wrapper terminal and nothing left open unless the caller's context was cancelled; unless a timeout or a cancellation from outside ended it early, the results are what begin, guards and driver say |
| `Batch.UndisturbedBatch` | cmd/cli/batch.go:33-95 | without a timeout or a cancellation the statements are applied if and only if begin, every statement and commit are accepted |
| `Batch.EndBatch` | cmd/cli/batch.go:73-92 | the end of the batch: roll back what the loop has not rolled back, commit where nothing failed, report a failed commit |
| `Batch.BatchExecDirect` | cmd/cli/batch.go:97-120 | the database holds exactly the statements whose results carry no error; the results are what guards and driver say, and stop behind the first error unless told to continue |
| `Batch.ReportLength` | cmd/cli/batch.go:97-120 | an undisturbed batch that continues reports on every statement, any other stops behind the first that is not accepted |
| `Batch.ErrorMeaning` | cmd/cli/batch.go:97-120 | a statement is reported without error if and only if the guards and the driver let it pass |
| `Batch.ReportsAreUnique` | cmd/cli/batch.go:33-120 | statements, settings and the driver's answers determine the results of an undisturbed batch |
| `Batch.BatchModesAgree` | cmd/cli/batch.go:33-120 | on the same statements, settings and driver, a transaction that no timeout or cancellation ended early reports what the direct mode reports, up to a commit that the driver refuses; the databases are equal if and only if the transaction has no error or the direct mode applied nothing |
| `Guard.MatchesOp` | pkg/guard/guard.go:62-81 | the byte loop decides the case-insensitive word prefix |
| `Guard.IsDangerousOp` | pkg/guard/guard.go:53-60 | true exactly when one of the listed operations matches |
| `Guard.GuardSeesOperation` | pkg/guard/guard.go:53-81 | dangerous if and only if Operation is DROP or TRUNCATE, the text starts with it, and no carriage return, vertical tab or form feed follows the word |
| `Guard.PolicyAnswers` | pkg/guard/guard.go:86-100 | a DROP or TRUNCATE in sight is blocked if and only if the policy is Block, and needs a confirmation if and only if it is Prompt; no other statement gets either answer |
| `Guard.WhereAnswers` | pkg/db/transaction.go:177-181 | an UPDATE or DELETE is rejected if and only if the session asks for it and no WHERE stands outside quotes |
| `Guard.SightOfWord` | pkg/guard/guard.go:62-81 | in sight means that the text itself starts with the word, in any case, with a blank, a tab, a parenthesis, a newline or nothing behind it |
| `Guard.CarriageReturnHidesDrop` | pkg/guard/guard.go:74-80 | DROP in front of a carriage return is an operation the guard does not see |
| `Guard.WhereCheckIsExact` | pkg/db/transaction.go:178-181 | an UPDATE or DELETE passes if and only if WHERE stands outside the quotes of the quote scan; the guard is right about the statement if and only if the two scans both meet a WHERE outside, or both do not |
| `Guard.CommentedWherePasses` | pkg/db/transaction.go:178-181 | a WHERE in a trailing comment lets every UPDATE and DELETE pass |
| `Splitter.SplitStatements` | internal/sqlnorm/split.go:8-111 | the flag loop with doubled-quote lookahead returns the trimmed non-empty top-level pieces that the plain toggle automaton reads |
| `SplitTheorems.SplitComposes` | internal/sqlnorm/split.go:17-110 | a text ending in normal mode can be split on its own |
| `SplitTheorems.ComposesExactly` | internal/sqlnorm/split.go:17-110 | splitting commutes with appending ";" and any text if and only if the first text ends in normal mode |
| `SplitTheorems.RoundTripExactly` | internal/sqlnorm/split.go:8-111 | statements come back from their joined text if and only if each is trimmed, non-empty, without comment or separator, and all but the last close their quotes |
| `SplitTheorems.ResplitExactly` | internal/sqlnorm/split.go:8-111 | splitting the joined output again changes nothing if and only if dropping the comments of the input puts no two bytes together that open one |
| `SplitTheorems.ResplitOfStatements` | internal/sqlnorm/split.go:8-111 | the same, read off the output: no output statement opens a comment |
| `SplitTheorems.CommentFreeTextsResplit` | internal/sqlnorm/split.go:8-111 | a text that never enters a comment always resplits to itself |
| `SplitTheorems.CommentsCanGlue` | internal/sqlnorm/split.go:79-83 | the input `-/**/-` fails that condition, and its output splits to nothing |
| `SplitSyntax.LineCommentEnds` | internal/sqlnorm/split.go:20-25 | a line comment between statements counts for nothing and ends with its line |
| `SplitSyntax.BlockCommentEnds` | internal/sqlnorm/split.go:27-33 | a block comment between statements counts for nothing and ends at its first closer |
| `SplitSyntax.OpenCommentSwallows` | internal/sqlnorm/split.go:20-33 | a comment without its end swallows the rest of the text |
| `SplitSyntax.LineCommentsAreTransparent` | internal/sqlnorm/split.go:20-80 | cutting a line comment out of normal text changes nothing, as long as the bytes around it do not join |
| `SplitSyntax.BlockCommentsAreTransparent` | internal/sqlnorm/split.go:27-83 | the same for a block comment |
| `SplitSyntax.LiteralsAreOpaque` | internal/sqlnorm/split.go:35-92 | a literal in any of the three quotes is one statement, byte for byte, whatever separators, comments and other quotes it holds |
| `SplitSyntax.OpenLiteralTakesTheRest` | internal/sqlnorm/split.go:35-111 | an open literal takes the rest of the text with it |
| `SplitSyntax.UnmarkedIsOneStatement` | internal/sqlnorm/split.go:78-111 | text without quotes, semicolons and comment openers is one statement, trimmed, or none if blank |
| `Keywords.StripQuoted` | internal/sqlnorm/sqlnorm.go:108-142 | the two-flag loop blanks the bytes of quoted literals and keeps all others in place |
| `Keywords.MatchKeyword` | internal/sqlnorm/sqlnorm.go:145-165 | the search loop is true if and only if a delimiter-bounded occurrence exists |
| `Keywords.HasKeyword` | internal/sqlnorm/sqlnorm.go:34-51 | the clause checks are the search on the stripped text |
| `Keywords.HasClauseMeaning` | internal/sqlnorm/sqlnorm.go:34-51 | a clause is found if and only if a bounded occurrence lies outside string literals of the original text |
| `Keywords.LexersAgreeExactly` | internal/sqlnorm/sqlnorm.go:108-142 | the stripper blanks exactly what the splitter holds quoted or in comments, and the quote delimiters, if and only if no normal-mode byte is a backtick or opens a comment; both then end outside quotes together |
| `Keywords.AgreementInstances` | internal/sqlnorm/sqlnorm.go:108-142 | a backtick inside a string literal does no harm; a backtick-quoted name and a comment do |
| `Keywords.ClauseScans` | internal/sqlnorm/sqlnorm.go:34-51 | a clause is found if and only if the keyword stands where the quote scan is outside quotes; it is SQL if and only if it stands where the splitter is in normal mode |
| `Keywords.SearchIsExact` | internal/sqlnorm/sqlnorm.go:34-51 | the clause checks are right about a text if and only if both scans meet the keyword outside, or both do not |
| `Keywords.KeywordBounds` | internal/sqlnorm/sqlnorm.go:145-180 | the exact characters in front of which, and behind which, a keyword is found; not letters, digits, underscore or backtick |
| `Keywords.BlanksAreInterchangeable` | internal/sqlnorm/sqlnorm.go:145-180 | exchanging blanks, tabs and line breaks never changes what a clause check says |
| `Itoa.PrintInt` | internal/sqlnorm/sqlnorm.go:84-105 | the buffer loop yields the decimal numeral if and only if -10^11 < n < 10^12; outside it panics, except for a bare sign for the least integer |
| `Itoa.DecimalRoundTrip` | internal/sqlnorm/sqlnorm.go:84-105 | the numeral has no superfluous zeros and parses to the number |
| `Itoa.NumeralRoundTrip` | internal/sqlnorm/sqlnorm.go:84-105 | every canonical numeral is the print of its value |
| `QueryTexts.AppendedClauseText` | internal/sqlnorm/sqlnorm.go:53-74 | the exact text that AppendLIMIT and AppendOFFSET give for a statement between white space, with and without a semicolon |
| `QueryTexts.OperationOfText` | internal/sqlnorm/sqlnorm.go:6-17 | the operation is the first word in capitals, up to a blank, a tab, a line break or an opening parenthesis |
| `QueryTexts.OperationGoesOn` | internal/sqlnorm/sqlnorm.go:12 | no other byte ends the first word |
| `Text.SpaceCodes` | internal/sqlnorm/split.go:94-108 | white space is the blank and the codes 9 to 13 |
| `Text.UpperAlphabet` | internal/sqlnorm/sqlnorm.go:12-17 | upper-casing maps the small letters to the capitals and nothing else |
| `Rewrite.HasClauseConcat` | internal/sqlnorm/sqlnorm.go:34-74 | appended text adds its keywords outside quotes and nothing inside an open quote |
| `Rewrite.AppendedLimitIsFound` | internal/sqlnorm/sqlnorm.go:67-74 | the result has a LIMIT clause if and only if the quote scan of the text ends outside quotes or it had one |
| `Rewrite.OpenQuoteHidesLimit` | internal/sqlnorm/sqlnorm.go:67-74 | behind an open quote the appended LIMIT is not found |
| `Rewrite.AppendedLimitKeepsOffset` | internal/sqlnorm/sqlnorm.go:47-74 | appending a LIMIT neither adds nor hides an OFFSET |
| `Rewrite.EnforcementIsIdempotent` | pkg/db/query.go:59-80 | a second enforcement changes nothing if and only if the search sees a LIMIT after the first, which is so if and only if it saw one before or the quote scan ends outside quotes |
| `Rewrite.AppendingChanges` | internal/sqlnorm/sqlnorm.go:65-74 | appending a clause never gives the text back unchanged |
| `Rewrite.AppendedWordIsRead` | internal/sqlnorm/sqlnorm.go:56-74 | an appended keyword is read in the mode in which the text ends: as SQL if and only if that is outside quotes and comments |
| `Rewrite.AppendedClauseReads` | internal/sqlnorm/sqlnorm.go:56-74 | the rewritten text has the clause as SQL if and only if the text had it, or ends outside quotes and comments |
| `Rewrite.CommentedWordIsFound` | internal/sqlnorm/sqlnorm.go:34-51 | a keyword in a trailing comment is found, although it is not read as SQL |
| `Rewrite.BacktickHidesClause` | internal/sqlnorm/sqlnorm.go:108-142 | a quote between backticks hides a clause that is read as SQL |
| `Rewrite.RewrittenStatementStaysWhole` | internal/sqlnorm/sqlnorm.go:56-74 | a rewritten text splits to exactly itself if and only if the text is not empty but for white space and one semicolon, and holds neither comment nor separator |
| `Paging.Clamp` | pkg/db/query.go:71-78 | the applied limit never exceeds the maximum and is the caller's or the default wherever that is allowed |
| `Paging.LimitIsEnforced` | pkg/db/query.go:42-80 | the LIMIT path's text is still the same kind of statement; it shows a LIMIT, and passes any later enforcement unchanged, if and only if one was seen before or the quote scan ends outside quotes; it has a LIMIT that is read as SQL if and only if the one seen is, or, with an appended one, the text ends outside quotes and comments or has another; an appended limit is at most the maximum |
| `Paging.CursorIsBothAppends` | internal/sqlnorm/pagination.go:16-49 | ApplyCursor's text is AppendOFFSET after AppendLIMIT |
| `Paging.PathsAgreeExactly` | pkg/db/query.go:162-199 | the two pagination paths build the same text, warning and HasMore limit if and only if the text has a LIMIT or limit and offset are in range and no OFFSET stands alone |
| `Paging.PlansPanicExactly` | pkg/db/query.go:162-199 | the exact inputs on which each path panics on a number too wide for itoa |
| `Paging.LongOffsetPanics` | pkg/db/query.go:184-187 | on a plain SELECT an offset of 10^12 panics on the offset path and is printed on the options path |
| `QueryTexts.LimitPathPlan` | pkg/db/query.go:42-80 | the LIMIT path refuses what is neither SELECT nor WITH, passes a LIMIT through, and otherwise hands on the text with the clamped limit |
| `QueryTexts.OffsetPathPlan` | pkg/db/query.go:162-187 | without a LIMIT, the offset path hands on the text with the clamped limit and with the OFFSET that is asked for, unless one is seen |
| `QueryTexts.OptionsPathPlan` | pkg/db/query.go:273-307 | without a LIMIT, the options path refuses negative numbers, reads a limit of 0 as 100, and always appends the OFFSET asked for |
| `QueryTexts.PlansBehindLimit` | pkg/db/query.go:162-187 | behind a LIMIT both pagination paths append an OFFSET that is asked for and not seen, and change nothing else |
| `QueryTexts.OnlyQueriesPass` | pkg/db/query.go:266-271 | both pagination paths refuse exactly what is neither SELECT nor WITH |
| `QueryTexts.WarningsAreRight` | pkg/db/query.go:83-93 | each path tells which limit it appended, and that it was cut down if and only if more than the maximum was asked for |
| `Queries.QueryWithLimit` | pkg/db/query.go:42-137 | the step-by-step rewriting and row loop hand the plan's text to the driver and deliver its refusal, its fault, or all rows with each value under its own column, with count, warning and HasMore |
| `Queries.FirstPage` | pkg/db/query.go:42-137 | on a table that holds still, the LIMIT path delivers the first page of the walk, each value under its own column |
| `Queries.QueryWithOffset` | pkg/db/query.go:145-245 | the same for the offset path |
| `Queries.QueryWithOptions` | pkg/db/query.go:256-402 | the same for the options path |
| `Queries.PageWalk` | pkg/db/query.go:166-232 | on either pagination path, asking on with the offset moved by RowCount until HasMore is false ends, returns every remaining row once and in order, each value under its own column, with full pages up to a shorter last one, none above the maximum; behind the last row it is one empty page |
| `Queries.WalksAreUnique` | pkg/db/query.go:166-232 | there is only one such walk |
| `Queries.PageTextIsInjective` | internal/sqlnorm/pagination.go:38-49 | limit and offset can be read back from a page's text |
| `Queries.HonouringDatabaseExists` | pkg/db/query.go:201-232 | every fixed table can be served to the walk, so its assumption is never empty |
| `Masker.ReplaceQuoted` | internal/sanitize/sanitize.go:91-113 | one pass masks what lies behind an odd number of its quotes and keeps everything else in place |
| `Masker.SanitizeSQL` | internal/sanitize/sanitize.go:82-88 | the two passes in their order |
| `Masker.SecondPassKeepsParity` | internal/sanitize/sanitize.go:82-113 | the double-quote pass removes single quotes in pairs, or everything behind an unclosed one |
| `Masker.SanitizingIsIdempotent` | internal/sanitize/sanitize.go:82-113 | masking twice is masking once, for every text |
| `Masker.SanitizingIsPositional` | internal/sanitize/sanitize.go:82-113 | each position keeps its character or shows an asterisk, and shows one inside single quotes |
| `Masker.MasksLiteralsExactly` | internal/sanitize/sanitize.go:81-88 | the passes mask exactly the contents of literals if and only if no closed double-quoted literal holds an odd number of single quotes |
| `Masker.OddQuoteMasksTooMuch` | internal/sanitize/sanitize.go:81-88 | a single quote inside a double-quoted literal fails that condition, and its closing quote is masked |

## Where the code differs from what is said about it

- `AppendLIMIT` is documented to return a text with a LIMIT unchanged (internal/sqlnorm/sqlnorm.go:65-66); it always appends,
  and its callers test first. The model appends, and `Rewrite.AppendingChanges` shows that no text comes back unchanged.
- `acquireConcurrencySlot` is documented to block at the limit (pkg/db/session.go:120); it returns an error. The model refuses.
- `Wait` is documented to return when the producer has fully completed (pkg/result/result.go:140-142); in every run the
  row channel and the slot are released after that (`StreamTheorems.WaitReturnsBeforeRelease`, `StreamTheorems.SlotIsFreeOnExit`).
- `checkActive` is documented to refuse statements once the transaction is over (pkg/db/transaction.go:84-92); it gives the
  mutex back before the statement runs, so one that has passed it can still run, and only such a one (`TxClients.MarkStopsStatements`).
- LIMIT enforcement is called mandatory and UPDATE or DELETE without WHERE rejected; the search reads comments as text and
  does not know backticks (`Keywords.SearchIsExact`, `Paging.LimitIsEnforced`, `Guard.WhereCheckIsExact`).
- `itoa` panics for an offset of 10^12 or more, which `queryWithOffset` and the LIMIT branch of `QueryWithOptions` pass on;
  `ApplyCursor` prints it (`Paging.PlansPanicExactly`).
- `SQL` is documented to mask literal values; a single quote inside a double-quoted literal can shift the two passes
  (`Masker.MasksLiteralsExactly` gives the exact condition).
- `matchesOp` is documented to stop at a word boundary; it does not count a carriage return as one (`Guard.InSight`).

## Left out

- Drivers, sqlx, `Rebind`, value scanning, JSON and logging: foreign code. Where only one path calls `Rebind`, the model compares the texts before it.
- Time: deadlines are events, and `DurationMs`, `LastInsertID` and `RowsAffected` are not modelled.
- The choice of a timeout in `Session.Begin`: it picks one of two durations, and the model lets the deadline fire at any moment.
- Text outside ASCII: upper-casing and trimming follow Go on ASCII only; white space is the six ASCII characters that `strings.TrimSpace` removes.
- Statements that commit implicitly (DDL on MySQL) and drivers whose failed statement leaves an effect: the database is assumed transactional.
- The goroutine of `QueryStream` as a loop: it runs concurrently with its consumer, so it is a state machine over values; `StreamResults.StreamResult` keeps the fields and their updates in place.
- The consumer of a stream is one goroutine: Next and Close are not safe to call from two, and the model does not interleave them with each other.
- The LIMIT logic inside `QueryStream` and inside the transaction's queries: the same clamping and appending as in pkg/db/query.go, with a capped-limit warning that those two can never give.
- `pkg/dsn`, `pkg/config`, `pkg/registry`, the CLI commands and `looksSensitive`: setters, lookups and heuristics that would add easy members only.
- Keywords.MatchKeyword: asks for a non-empty keyword, because all callers pass one.
