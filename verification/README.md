# From a bank statement to a printed figure

A Dafny model of the path a transaction takes through this repository: a parsed statement is
validated and imported, its rows are deduplicated and internal transfers paired, a chunked job and
people classify them, and a management P&L is computed, reconciled and opened again row by row.
What the code promises about that path is stated and proved for all inputs, all runs and all
reachable states. `dafny verify dfyconfig.toml` checks the project.

The modules, in the order a transaction meets them:

- `Statements` - row and file validation, the declared balance, and the signed amount of a row.
- `ImportStatus`, `ImportRecords` - the import state machine, each job's transaction one step, and
  what its tables remember of the jobs.
- `Normalize` - the scanner that joins digit groups, against the pattern it replaces.
- `Dedup`, `Transfers`, `StatementImport`, `RowDuplicates` - occurrence-numbered hashes, greedy
  pairing of internal transfers, the import that does both to a validated statement, and what
  makes a row of one a duplicate.
- `Engine`, `RuleMeaning` - the classification engine, the guard on its response, and what a rule
  asks of a transaction.
- `Books`, `BookDecisions`, `BookRuns`, `BookKeeping` - append-only classifications under concurrent
  writers: the steps, their invariant, and that every step keeps it.
- `BookLaws`, `ReviewLaws`, `RunLaws`, `UnreviewedRuns`, `RunsApart`, `BookService`, `BatchClassification` - what
  the invariant means for decisions and for runs, what a run leaves while nobody reviews and
  everybody else goes on, the tables updated in place, and the engine inside a run.
- `Pnl`, `PeriodColumns`, `Ledger`, `GroupedReads`, `DrillDown`, `Cursors`, `Reconciliation`,
  `StripAgreement`, `ManagementReport`, `TransferFigures`, `PairedPeriods` - the report, its columns,
  the ledger it reads, the cell behind a figure, the strip below it, what holds between them, and
  what transfers do to either.
- `Money`, `Locale`, `AmountTexts`, `Int64`, `Text`, `Calendar`, `Wrappers` - amounts as text, int64 arithmetic
  with its wrap-around, digits, days.

Modelling choices. Tables are sequences and maps, a query is a filter or a sum over them, and each
database transaction is one step; a unique index or a deferred trigger is a step that does not
commit. Each module keeps the columns of a transaction that its own queries read. The code's int64
sums wrap explicitly (`Int64.Wrap`); a `::bigint` that does not fit is an error. One organisation
and one normalisation version are fixed. Where the source updates state, a class or a loop does the
same and is proved equal to a specification function, and the lemmas are about that function: what
holds over every run of it, and what it means in terms of the rows, texts and days it is given.

## Findings

Properties that fail at an edge, each with its exact condition and an input that shows it:

- `Parse(Format(m))` loses the most negative int64 amount except in two-digit currencies, where two
  stray signs cancel (`Money.RoundTrip`).
- An amount grouped with a comma or a point and no decimal mark is read as a fraction: "1,234" of a
  three-digit currency is 1.234 (`Locale.UnmarkedAmount`, `Locale.GroupingReadAsFraction`).
- A range ending in 9999-12 is refused: `Months` compares text and runs on past the year 9999
  (`PeriodColumns.Months`, `PeriodColumns.Periods`).
- A section's figure whose exact value leaves int64 is printed wrapped, while its drill-down is
  refused. Only rows of internal transfers can bring it about, as any others would stop the strip
  (`ManagementReport.FigureIsExact`, `ManagementReport.FigureWithoutTransfers`); four such rows of
  one day do (`TransferFigures.PrintWrapped`).
- A detected transfer is meant to be out of the P&L (core/internal/dedup/transfer.go:48-52), and the
  report never asks who is a leg. A section is free of transfers exactly where the legs on its line
  add up to nothing (`TransferFigures.LegsStayOnLine`); costs can be nothing but legs
  (`TransferFigures.PrintLegs`).
- A queue cannot always be emptied: whatever a counterparty's decision was, skipping included, it
  refuses every further one until it is undone (`BookLaws.ResolveSucceeds`,
  `BookLaws.DecidedUntilUndone`, `BookLaws.SkippedIsStuck`).
- A classification job stops itself when somebody answers a row it is about to answer, and exactly
  then (`RunLaws.WriteStops`). It leaves its run `running` for good: the job tried again loses at
  `open`, so the page is not read again as core/internal/classifyrun/classifyrun.go:153-157 says
  (`RunLaws.StoppedForGood`, with such a run in `RunLaws.ReviewStrandsRun`).
- The separator of the deduplication key is not excluded from free text. A bank row shares
  its key with another exactly when its description or its reference contains it
  (`Dedup.KeyIsShared`, `Dedup.SeparatorConfuses`).
- A debit of the most negative int64 cannot be negated, and each one takes 2^64 from what a
  statement adds up to (`Statements.StatementConserves`, `Statements.LoneDebitIsLost`). Such a row
  does not get past pairing, whose query negates it once more: the whole import is refused, and for
  no other amount (`Transfers.PersistKeeps`, `StatementImport.ImportKeeps`).

## Model

| member | source | states |
|---|---|---|
| `Money.RoundTrip` | core/internal/money/money.go:57-120 | Parse undoes Format for every known currency and int64 amount if and only if the amount is not the most negative one or the currency has two digits |
| `Money.PowerOfTen` | core/internal/money/money.go:122-128 | the loop computes ten to the exponent |
| `Money.BrowserAgrees` | web/src/money.ts:107-121 | the browser's rendering without grouping has the digits Format prints, except for the most negative amount in a currency with decimals |
| `Locale.AmountRecovered` | core/internal/ingest/locale.go:20-64 | any thousands grouping with either decimal mark is read back to the amount it spells, exactly when that amount is an int64; beyond it the value wraps without an error |
| `Locale.AmountRefused` | core/internal/ingest/locale.go:20-64 | a grouped amount with more decimals than the currency, in one without minor digits any at all, or a whole part beyond int64, is refused |
| `Locale.BlanksDoNotMatter` | core/internal/ingest/locale.go:20-30 | white space around an amount changes nothing, and nothing else is an amount of nothing |
| `Locale.PlusDoesNotMatter` | core/internal/ingest/locale.go:26-28 | a plus before a number changes nothing |
| `AmountTexts.AmountsAreNumbers` | core/internal/ingest/locale.go:20-52 | the texts taken for an amount are exactly the blank ones and the numbers, digits with the other mark among them and one decimal mark at most, behind a minus, a plus or both |
| `AmountTexts.DigitsAreKept` | core/internal/ingest/locale.go:20-50 | the digits of the amount read are those of its text, every one and in order |
| `Locale.UnmarkedAmount` | core/internal/ingest/locale.go:20-50 | whole units of either sign without a decimal mark are read as whole units if and only if no comma or point groups them |
| `Locale.WholeAmount` | core/internal/ingest/locale.go:20-64 | grouped by spaces they are an amount in minor units, in every currency, exactly when int64 holds it; beyond it the value wraps, and units int64 does not hold are refused |
| `Locale.GroupingReadAsFraction` | core/internal/ingest/locale.go:20-64 | the concrete input on which grouping is taken for the decimal mark |
| `Normalize.JoinDigitGroups` | core/internal/normalize/normalize.go:93-118 | the one-pass scanner drops exactly the separators that lie in a run with a digit at both ends, as eval/norm.py:54 writes with look-around |
| `Normalize.DroppedMeans` | core/internal/normalize/normalize.go:93-120 | what falls away is white space or a hyphen with a digit on either side and only such between |
| `Normalize.JoiningIsIdempotent` | core/internal/normalize/normalize.go:93-118 | joining joined text changes nothing |
| `Normalize.DigitsStay` | core/internal/normalize/normalize.go:93-118 | joining loses no digit and moves none |
| `Statements.CheckRow` | core/internal/ingest/validate.go:81-139 | every fault of a row is reported, once, in order and with the text it is about, and nothing else is; no error means one side of the row is zero |
| `Statements.BalanceCheck` | core/internal/ingest/priorbank.go:438-450 | opening plus credits less debits meets the declared closing balance, as int64 adds, exactly when the difference reported is zero |
| `Statements.CheckDuplicateReference` | core/internal/ingest/completeness.go:133-143 | found if and only if two rows of the file carry one reference |
| `Statements.ReferenceMeans` | core/internal/ingest/completeness.go:133-143 | two rows carry one reference if and only if day, document number, counterparty account, debit and credit agree, where the texts hold no bar |
| `Statements.WarningsMean` | core/internal/ingest/completeness.go:52-88 | each warning is given exactly when its own check fails, at most once and in order, the mismatch with the balances it is about |
| `Statements.ValidateStatement` | core/internal/ingest/completeness.go:41-88 | all errors and warnings of a file, its tri-state balance check, and the outcome: rejected exactly when there is an error |
| `Statements.AmountIsMovement` | core/internal/ingest/persistjob.go:233-243 | the signed amount of a row is credit less debit if and only if one of the two is zero |
| `Statements.StatementConserves` | core/internal/ingest/persistjob.go:233-265 | for every statement without errors the inserted and skipped amounts add up to credits less debits if and only if no debit is the most negative int64, each of which takes 2^64 |
| `Statements.LoneDebitIsLost` | core/internal/ingest/persistjob.go:233-243 | the statement of one row in which it happens |
| `Statements.PassedBalanceConserves` | core/internal/ingest/completeness.go:52-75 | a passed balance check means opening plus inserted plus duplicate-skipped is the declared closing balance |
| `ImportStatus.RunFollowsTable` | core/internal/ingest/state.go:40-77 | over any run of jobs in any order a batch moves only along paths of the table, and a terminal status is its last |
| `ImportStatus.ImportsAreKept` | core/internal/ingest/persistjob.go:74-193 | in every reachable state receipts, rows, digests and failures agree with the status, and no two imported batches share a digest |
| `ImportStatus.ImportedMeans` | core/internal/ingest/validatejob.go:73-175 | only an imported batch has transactions or skips, a rejected one has a correctness error, and one file is imported once |
| `ImportRecords.TableMeans` | core/internal/ingest/state.go:40-58 | the table is a line of stages, failure from every stage but the last, abandonment of an awaited upload and rejection of a validated file, and nothing else |
| `ImportRecords.JobsMove` | core/internal/ingest/persistjob.go:74-193 | where each job takes a batch, from every status and with everything it can find |
| `ImportRecords.HistoryRecords` | core/internal/ingest/validatejob.go:73-175 | over any history the tables say only what happened: counts, receipts and digests are those some job brought, and each failure has its own cause |
| `ImportStatus.Pipeline.WorkMeasure` | core/internal/ingest/measure.go:81-167 | measuring leaves exactly the specified tables: uploaded, or failed as missing, too large or already imported; only an object too large is deleted |
| `ImportStatus.Pipeline.WorkExpire` | core/internal/ingest/expire.go:40-74 | a batch is abandoned, and its object deleted, exactly when the upload never came |
| `ImportStatus.Pipeline.WorkValidate` | core/internal/ingest/validatejob.go:73-175 | receipt and status change together along legal transitions |
| `ImportStatus.Pipeline.WorkPersist` | core/internal/ingest/persistjob.go:74-193 | rows and status land together; the loser of a race for one file is taken back and fails |
| `Dedup.Partition` | core/internal/dedup/partition.go:37-47 | each row's hash is its content with the number of times that content has come so far |
| `Dedup.Import` | core/internal/ingest/persistjob.go:109-137 | what no earlier import stored is stored, in order; inserted plus skipped is the number of rows |
| `Dedup.KeysTellApart` | core/internal/ledger/dedup.go:22-33 | a row without separators in its texts shares its key with no row of another content, whatever that one contains |
| `Dedup.KeyIsShared` | core/internal/ledger/dedup.go:14-33 | a bank row shares its key with another if and only if its description or its bank reference contains the separator |
| `Dedup.SeparatorConfuses` | core/internal/ledger/dedup.go:14-33 | two rows that differ in two texts alone and share a key |
| `Dedup.KeyedIsInjective` | core/internal/ledger/dedup.go:58-61 | a hashed text names one key and one occurrence, whatever the key contains |
| `Dedup.HashedText` | core/internal/ledger/dedup.go:22-61 | the text that is hashed, field by field |
| `Dedup.StoredIsMaximum` | core/internal/dedup/partition.go:37-47 | after any history of files, whatever they hold, a content without separators is stored for exactly the occurrences 1 to the most that any one file held of it |
| `Dedup.StoredOnce` | core/internal/ingest/persistjob.go:116-137 | no occurrence of a content is ever stored twice |
| `Dedup.ImportedAgain` | core/internal/ledger/dedup.go:35-61 | a file imported again inserts nothing, however much came in between |
| `Dedup.OrderDoesNotMatter` | core/internal/ledger/dedup.go:35-61 | histories of the same files in different orders store the same occurrences |
| `RowDuplicates.RowsShareKey` | core/internal/ingest/persistjob.go:233-265 | two rows of statements share a key, where the texts of one are plain, if and only if account, currency, day, signed amount, normalised description and document number agree |
| `RowDuplicates.ImportAddsTheExcess` | core/internal/ingest/persistjob.go:109-137 | over any history of imports a statement stores, of the rows alike in those, exactly as many as exceed the most that any one earlier statement held |
| `RowDuplicates.RowIsStored` | core/internal/ingest/persistjob.go:233-265 | every row whose hash is new is stored with its id, the upload's entity, account and kind, its own day and its signed amount |
| `RowDuplicates.StoredIsRow` | core/internal/ingest/persistjob.go:109-137 | and nothing else is stored |
| `Transfers.NearestIsFirst` | core/gen/db/dedup.sql.go:330-344 | the row paired is the candidate nearest in days, and of those the one of lowest id |
| `Transfers.PersistKeeps` | core/internal/ingest/persistjob.go:90-149 | importing one account's statement never violates the members' key: it is refused if and only if an amount cannot be negated, and otherwise keeps the matching valid and maximal |
| `Transfers.HistoryKeeps` | core/internal/dedup/transfer.go:53-107 | after any history of such imports and of dismissals the matching is valid and maximal |
| `Transfers.PairsAfterHistory` | core/internal/dedup/transfer.go:53-107 | no transaction is in two pairs, every pair is an outgoing and an incoming amount that cancel, in two accounts of one entity and kind at most three days apart, and no two unpaired rows could still be one |
| `Transfers.CancelsMeans` | core/gen/db/dedup.sql.go:330-344 | the candidates of the query are the rows a pair could be made with, the window closed on both sides |
| `Transfers.DetectionMeans` | core/internal/dedup/transfer.go:53-107 | one pairing makes one transfer, of the row and the candidate nearest in days and then of lowest id, the outgoing leg first; or none, where there is no candidate |
| `Transfers.DismissalMeans` | core/internal/dedup/transfer.go:130-143 | a dismissal stamps one active transfer, keeps its members, and changes nothing else |
| `Transfers.PersistRefused` | core/internal/dedup/transfer.go:53-107 | an import is refused if and only if an amount cannot be negated, or one of its rows takes another before its turn and that one could then be paired again |
| `Transfers.TwoAccountsCollide` | core/internal/ingest/persistjob.go:90-149 | why every row is given the statement's one account: three rows over two accounts would be refused whole |
| `Transfers.Tables.DetectAndPair` | core/internal/dedup/transfer.go:53-107 | the tables after one pairing, none where the amount is zero or nothing cancels it, an error where it cannot be negated |
| `Transfers.Tables.Persist` | core/internal/ingest/persistjob.go:90-149 | one account's rows are stored and paired, or everything is rolled back, which happens for an amount that cannot be negated and for nothing else |
| `Transfers.Tables.Dismiss` | core/internal/dedup/transfer.go:130-143 | an active pair is stamped and stays a pair; any other is not found |
| `StatementImport.ImportKeeps` | core/internal/ingest/persistjob.go:90-149 | an import succeeds if and only if its dates can be read and its new amounts negated, stores exactly the rows no earlier import stored, and keeps hashes, rows and pairs in order |
| `StatementImport.ImportReconciles` | core/internal/ingest/completeness.go:52-75 | for an imported statement without errors whose balance check passed, the opening balance, what the ledger gained and the rows an earlier import had brought make the declared closing balance |
| `StatementImport.ImportedTwice` | core/internal/ledger/dedup.go:35-61 | the same statement imported again leaves every table as it is |
| `StatementImport.Ledger.Persist` | core/internal/ingest/persistjob.go:90-149 | the rows built, hashed, looked up, stored and paired in order, all of it undone by any error; inserted and skipped are counted and add up to the rows |
| `Engine.ClassifyBatch` | classifier/src/vekst_classifier/engine.py:214-261 | a batch is refused for its version or for a category it does not carry, and otherwise answered transaction by transaction or refused at the first that is |
| `Engine.AnswerIsLeast` | classifier/src/vekst_classifier/engine.py:191-211 | where memory is silent the two scans give the verdict of the one rule that settles the matter and comes first, however layers interleave in the request |
| `Engine.AnswerIsArgmin` | core/gen/db/classify.sql.go:14-24 | over the rules as the query orders them the answer is memory's, or the lexicographic minimum of (regulated before textual, own before template, priority, id) |
| `RuleMeaning.RuleMeans` | classifier/src/vekst_classifier/engine.py:159-180 | a rule matches if and only if its kind of source is open or the transaction's, it asks something and all it asks is met; it is refused exactly when it asks nothing or comes, past conditions that are met, to one that cannot be asked |
| `RuleMeaning.ConditionMeans` | classifier/src/vekst_classifier/engine.py:110-157 | what each field asks of the transaction: every part of a list occurs, the same letters in any case, the same text, at least or at most an amount of the same currency; and the refusal of each |
| `RuleMeaning.ProposalMeans` | classifier/src/vekst_classifier/engine.py:191-243 | memory answers first, and nothing answers where nothing matches |
| `RuleMeaning.RuleProposalMeans` | classifier/src/vekst_classifier/engine.py:191-243 | where memory is silent the first rule to settle the matter proposes its category, or is refused, if its layer's confidence reaches the threshold |
| `RuleMeaning.LeastRuleAnswers` | core/gen/db/classify.sql.go:14-24 | over the rules as the query orders them the answer is that of the least by regulated code, own, priority and id, of those that match or are refused |
| `RuleMeaning.MemoryIsLast` | classifier/src/vekst_classifier/engine.py:236-238 | memory is what the last row of a key says |
| `Engine.ChunksConcatenate` | classifier/src/vekst_classifier/engine.py:236-255 | asking in two chunks gives the same proposals and the same refusal as asking once |
| `Engine.ChunkClassifications` | core/internal/classifyrun/classifyrun.go:381-430 | a response is accepted whole if and only if it names page transactions, each once, in offered categories |
| `Engine.GuardNeverFires` | core/internal/classifyrun/classifyrun.go:381-430 | every response of an answering engine to a page of distinct transactions is accepted |
| `BookKeeping.BooksAreKept` | core/internal/review/review.go:423-630 | whatever imports, runs, decisions and undos happen in whatever order, between any two transactions of a job, the invariant of the books holds |
| `BookDecisions.UndoTakesBack` | core/gen/db/review.sql.go:86-93 | retracting a counterparty's live human answers retracts those its live decision wrote and nothing else |
| `BookLaws.LiveAnswerHasDecision` | core/internal/review/review.go:423-513 | in every reachable state a live human answer was written by the one live decision on its counterparty and is the only live answer of its row |
| `BookLaws.MemoryIsLiveCategorisation` | core/internal/review/review.go:462-476 | in every reachable state memory holds a counterparty if and only if its live decision categorises, with the same category |
| `BookLaws.ResolveSucceeds` | core/internal/review/review.go:514-548 | a group with rows in it can be decided if and only if no live decision stands on its counterparty, in any entity and of any outcome |
| `BookLaws.DecidedUntilUndone` | core/internal/review/review.go:514-548 | over any steps that do not undo it, a decision stands as it was and refuses the next |
| `BookLaws.SkippedIsStuck` | core/internal/review/review.go:423-513 | a row that arrived and was skipped is still queued and can no longer be decided |
| `ReviewLaws.ResolveAnswers` | core/internal/review/review.go:423-548 | a decision that is no skip answers exactly the rows of its entity and counterparty that nobody had answered, each with what it decided; and any decision records how many those rows were and what they came to |
| `ReviewLaws.ResolveRefuses` | core/internal/review/review.go:393-560 | each refusal, and exactly when it is given |
| `ReviewLaws.UndoRefuses` | core/internal/review/review.go:580-632 | an undo is refused exactly for a decision that is not there or is undone already |
| `BookLaws.UndoIsExact` | core/internal/review/review.go:580-632 | undoing a live decision at any later time retracts what it wrote, as many as it covered, returns exactly those rows to the queue and forgets only what it taught |
| `BookLaws.UndoInvertsResolve` | core/internal/review/review.go:580-632 | undone at once, every queue, answer and memory is as it was before the decision |
| `RunLaws.ChunkCollides` | core/internal/classifyrun/classifyrun.go:339-372 | the answers to a page make two live on some row if and only if a row the engine answers has an answer already |
| `RunLaws.WriteStops` | core/internal/classifyrun/classifyrun.go:130-157 | a job with a page in hand is stopped by its own write if and only if that is so, and otherwise commits |
| `RunLaws.ReviewStrandsRun` | core/internal/classifyrun/classifyrun.go:153-174 | a row arrives, a run pages it, a person decides it, the job writes: the run is left running and stays so whatever follows |
| `RunLaws.StoppedForGood` | core/internal/classifyrun/classifyrun.go:165-174 | a run whose job has stopped never changes again, whatever happens |
| `RunLaws.JobEnds` | core/gen/db/classify_run.sql.go:20-60 | a job ends its run as classified only on an empty page, as failed at any time, and leaves it as it was when it only stops |
| `RunLaws.ArrivalMeans` | core/internal/ingest/persistjob.go:109-149 | an imported row is there from then on and changes nothing else |
| `RunLaws.RunsAdvance` | core/internal/classifyrun/classifyrun.go:185-224 | in every reachable state a run has paged its rows in strictly ascending order, each once; its counters add up to them and match the ledger; it has no more chunks than there are rows |
| `UnreviewedRuns.NextRows` | core/gen/db/ledger.sql.go:436-450 | while nobody reviews, the page a run reads next starts where the last one stopped and skips no row of its queue, whatever other runs and imports do |
| `UnreviewedRuns.PageIsFirst` | core/gen/db/ledger.sql.go:436-450 | a page is the first unanswered rows of the batch past the cursor, by day and then id, as many as a chunk holds |
| `UnreviewedRuns.ChunkCommits` | core/internal/classifyrun/classifyrun.go:339-372 | while nobody reviews, no chunk of a run collides |
| `UnreviewedRuns.UnreviewedRun` | core/internal/classifyrun/classifyrun.go:185-224 | over any steps of any jobs and imports but review and rows of its own batch, a run that ends classified has answered the whole queue it opened on: its classifications are the engine's answers in order, its counters add up to it, its review count is what remains unanswered, and it took as many chunks as the queue fills |
| `UnreviewedRuns.ChunkingIsInvisible` | core/internal/classifyrun/classifyrun.go:185-224 | two runs of one batch from one state, each with its own chunk size and interleaving, end with the same classifications and counters |
| `RunsApart.OtherStepApart` | core/internal/classifyrun/classifyrun.go:158-225 | a run in flight is invisible to every step of other batches: each does what it would have done without it |
| `UnreviewedRuns.ReviewRemains` | core/gen/db/classify_run.sql.go:120-127 | what such a run leaves unanswered is exactly as many rows as the engine did not answer |
| `BookService.Service.Resolve` | core/internal/review/review.go:393-560 | the writes in order, and all of them rolled back where a live decision already stands |
| `BookService.Service.Undo` | core/internal/review/review.go:570-634 | retraction, memory and stamp; a decision already undone changes nothing, even with a newer one live; the count returned is the number of rows it covered |
| `BookService.Service.WriteChunk` | core/internal/classifyrun/classifyrun.go:339-372 | a page's answers and the counters commit together, or not at all where some row would have two live answers |
| `BookService.Service.Work` | core/internal/classifyrun/classifyrun.go:158-225 | with anything but review and rows of the batch happening between any two of its transactions, a run ends, leaves the engine's answers to the batch's whole queue in order and once each with counters that say so, for every chunk size, and leaves the rest as the others alone would have |
| `BookService.AloneLeaves` | core/internal/classifyrun/classifyrun.go:158-225 | where nothing happens in between, that is the whole new state |
| `BatchClassification.RunIsOneRequest` | core/internal/classifyrun/classifyrun.go:185-224 | whoever else imports and classifies meanwhile, the classifications of a run that ended correspond one for one to the proposals of a single request over the whole queue, and so do its counters |
| `PeriodColumns.Months` | core/internal/report/pnl.go:494-518 | the loop ends; every month of the range, in order, unless the range ends in 9999-12 |
| `PeriodColumns.Periods` | core/internal/report/pnl.go:472-490 | the columns of the range, each once and in order; refused if and only if the range ends in 9999-12 |
| `PeriodColumns.PeriodMonthsInvertsLabel` | core/internal/report/selection.go:165-190 | the months of a label are the months that carry it |
| `PeriodColumns.ColumnsTile` | core/internal/report/selection.go:121-218 | the clipped dates of the columns cover the range from its first day to its last, each opening the day after the one before closed |
| `PeriodColumns.DayInPeriodIffLabel` | core/internal/report/selection.go:121-161 | a day of the range lies in a column's dates if and only if its month carries the column's label |
| `Calendar.DayBeforeIsPrevious` | core/internal/report/selection.go:214-217 | a day back is the day numbered one less, across the ends of months and years |
| `Calendar.LastDayOfMonth` | core/internal/report/selection.go:214-217 | a day back from the first of the next month is the month's last day, leap Februaries included: no later day is in the month |
| `Calendar.DaysAreCounted` | core/internal/report/selection.go:165-218 | a day's number is 365 a year, one for each leap year gone by, the months before its own and the days before it |
| `Pnl.Compute` | core/internal/report/pnl.go:253-370 | accepted exactly when there is a currency, a column and a place for every row; every cell and total is what int64 keeps of the exact sum of its rows; nothing overflows while the amounts together stay within int64 |
| `Pnl.AcceptedMeans` | core/internal/report/pnl.go:278-322 | a row is taken exactly in a column of the report and in its currency, and of the basis only unclassified, off the P&L, to be allocated or in one of nine sections |
| `Pnl.FaultMeans` | core/internal/report/pnl.go:278-322 | the reason given for the first row that is not |
| `Pnl.Conserved` | core/internal/report/pnl.go:278-370 | net income and the four buckets add up to every row, in each column and in total |
| `Pnl.FormulasHoldAsPrinted` | core/internal/report/pnl.go:63-69 | every formula of the chain holds between the figures as printed, costs positive, in each column and in the totals |
| `Pnl.SharesAreOfNetSales` | core/internal/report/pnl.go:394-401 | the percentage beside a figure is its share of net sales as printed, and absent where there were none |
| `Pnl.FoldStep` | core/internal/report/pnl.go:333-342 | a computed line is the sum of every section printed above it |
| `Pnl.Present` | core/internal/report/pnl.go:374-383 | a cost section shows its exact sum with the sign turned |
| `Ledger.PlacedAlike` | core/gen/db/drilldown.sql.go:14-44 | the drill-down's predicate puts a transaction on a line exactly where the report does, if and only if its category has a code |
| `GroupedReads.AddedToGroup` | core/gen/db/report.sql.go:14-32 | grouping rows changes no sum the report takes |
| `GroupedReads.CellIsTotal` | core/internal/report/service.go:144-204 | the three grouped reads together make each cell the sum its drill-down takes |
| `ManagementReport.ManagementPNL` | core/internal/report/service.go:93-234 | there is a report exactly for a nameable range, a currency, groups, balances and sums a bigint holds and sections of the taxonomy; then every section figure and bucket is the total of the selection it opens to, costs with the sign turned, and the strip closes and agrees with the table |
| `ManagementReport.FigureIsExact` | core/internal/report/pnl.go:374-383 | a figure is its drill-down's exact total exactly when int64 can print it |
| `ManagementReport.FigureWithoutTransfers` | core/internal/report/service.go:93-234 | in a printed report a figure with no transfer on its line is what its drill-down answers |
| `TransferFigures.LegsStayOnLine` | core/gen/db/report.sql.go:14-32 | a section's drill-down is the sum of its rows that are no legs if and only if the legs on its line add up to nothing, and its printed figure if and only if they do in int64 |
| `TransferFigures.PrintLegs` | core/internal/dedup/transfer.go:48-52 | in every month, for every amount, there is a ledger whose report prints costs that are nothing but legs |
| `TransferFigures.PrintWrapped` | core/internal/report/pnl.go:374-383 | the largest amount prints costs of -2 and whose drill-down of it is refused |
| `StripAgreement.ReportMeetsStrip` | core/internal/report/drilldown.go:325-395 | net income and the basis's three buckets, as printed, are the strip's in less out less transfers, in every period |
| `StripAgreement.CellsAreMoved` | core/gen/db/drilldown.sql.go:253-303 | the drill-downs of a period's ten lines of the basis add up exactly to what the strip says moved |
| `DrillDown.LineTransactions` | core/internal/report/drilldown.go:150-308 | for a computed line, distinct lines of the table and which of them are taken away, such that they make its figure; an error for an unknown period; and otherwise one page with the whole cell's count and total |
| `DrillDown.OperandsMakeFigures` | core/internal/report/drilldown.go:186-200 | in every printed column and in the totals a computed line's figure is that of its operands, the subtracted ones taken away |
| `DrillDown.SelectionRefuses` | core/internal/report/selection.go:121-161 | a computed line selects nothing in any period, and any other line what its entity, basis and dates say |
| `DrillDown.NextPage` | core/gen/db/drilldown.sql.go:124-135 | the cursor a page hands out reads back, and past it lie exactly the rows the page did not show |
| `DrillDown.PagesMakeCell` | core/internal/report/drilldown.go:237-260 | following the cursor from the empty one with any limit shows every row of the cell once and in order, and adds up to its count and total |
| `Cursors.RoundTrip` | core/internal/report/selection.go:237-263 | a cursor's text reads back if and only if it is the start, or its id is not nil and its year has four digits |
| `Cursors.DatesAreRead` | core/internal/report/selection.go:254-257 | the texts read as a day are exactly those of the days there are, in years of four digits |
| `Cursors.IdsAreRead` | core/internal/report/selection.go:258-261 | the texts read as an id are exactly its four spellings in either case |
| `Cursors.TextOfParse` | core/internal/report/selection.go:237-263 | what a text reads as prints the same date and the canonical id, and the text itself if and only if its id was canonical and not nil |
| `Cursors.SamePlace` | core/internal/report/selection.go:246-263 | two texts read as one place if and only if they have one date and ids of one canonical text |
| `Cursors.CapitalsAreRead` | core/internal/report/selection.go:246-263 | an id in capitals is read, and printed in small letters |
| `Reconciliation.Reconcile` | core/internal/report/drilldown.go:325-395 | for any ledger and any pairs, opening + in - out - transfers = closing in every period, each closing opens the next, and the printed check is always true |
| `Reconciliation.TransfersCancel` | core/gen/db/drilldown.sql.go:253-303 | a period holding both legs of every pair it touches moves nothing by transfers |
| `PairedPeriods.PairedPeriodCancels` | core/gen/db/drilldown.sql.go:253-303 | after any history of imports and dismissals, a period holding both legs of every active pair or neither moves nothing by transfers, as the pairs an import makes are the strip's |

## Left out

- Percentages of revenue are real numbers rather than floats; column and line labels and formula texts are not carried.
- ParseLineRef. The UUID library is not part of the repository: its four spellings are modelled on text of one byte a character.
- fmt.Sscanf accepts a few malformed months and quarters (signs, spaces) of the right length; the model refuses them.
- Years past 9999 as stored booking dates, except where a cursor's text depends on them.
- The pinned versions a report carries.
- ORDER BY and LIMIT/OFFSET of the review queue's groups, UnclassifiedTotals and displayName.
- SupersedeClassification: nothing outside its own tests calls it, so no step of the books supersedes.
- A rejected request, a bad matcher and a timeout end a run as a failure or a stop at any point; which of them happens is not modelled.
- `BookService.Service.Work`: states the run of an engine that answers and a job nothing stops; review in between is covered by `BookKeeping.BooksAreKept`, `RunLaws.RunsAdvance` and `RunLaws.WriteStops`.
- `Transfers.PersistKeeps`: base amounts are given; PostgreSQL is taken to evaluate the negation of the parameter even where no row could match it.
- `Dedup.StoredIsMaximum`: SHA-256 is a parameter assumed injective; what is stored of contents with separators is given by key (`KeyStoredIsMaximum`).
- `Statements.ValidateStatement`: date parsing, amount parsing, the period and the currency table are parameters; account resolution is merged in by its caller.
- `Engine.ClassifyBatch`: whitespace is ASCII in `strip`, and letters are ASCII in `lower`.
- stripLegalForms, StripAddress, noise removal, NFKC and upper-casing.
- sumMinorUnits and grouping by locale in the browser.
- Roles, sessions, tenancy, HTTP, protobuf, River, object storage, the CSV and XLSX readers, and eval/.
