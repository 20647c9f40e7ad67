# A Dafny model of the `based` runtime and tools

This project models the parts of the `based` toolchain whose correctness is hardest to see by
reading: the crash-safe migration engine, the two idempotency stores, the exact decoders of the
PostgreSQL wire format, checked cursors, the expression printer against the parser it must agree
with, importing names and defaults from a live catalog, two code-generation checks that walk cyclic
declarations, staged publication of generated files, and the three line resolvers. Each module is
one source component; what the source changes in place is a class or a method with loops, proved
against a specification function, and what the source promises is proved about that function.

| module | models |
|---|---|
| `Wrappers`, `Sequences`, `Digits`, `Ascii`, `Dialects`, `Schemas` | shared definitions: options, sequences, digit strings, ASCII text, dialects, the checked schema |
| `Migration`, `ChunkCount`, `ChunkWalk`, `KeyLiteral`, `Resume`, `Apply`, `Histories`, `ForeignKeys` | segments and chunked steps, the rows they count, when `chunk` may be dropped, the cursor's literals, one resumable run, reconciling the ledger, whole histories of attempts, the SQLite foreign-key switch |
| `MemStore`, `DbStore` | the in-memory TTL store, and the key row inside the mutation's transaction |
| `Wire`, `Numeric`, `Calendar`, `TemporalReading`, `Cursor` | integers on the wire, binary numeric, dates and times and reading their texts back, the checksummed cursor |
| `ExprTree`, `ExprParser`, `ExprRoundTrip`, `ExprShortest` | printer, recursive-descent parser, and what they say of each other |
| `Quoting`, `Defaults`, `DefaultReading`, `Identifiers`, `CamelCase`, `Names` | string literals, imported defaults, spellings, where names are cut into words, the collision-free registry |
| `ShapeWalk`, `UnrolledShapes`, `FilterWalk`, `UnrolledFilters` | the ordered-nest check on cyclic shapes, the `.any` check under named filters, and what either stands for |
| `Publish`, `Lines` | staged publication, byte offsets to lines |

The environment is adversarial throughout. In `Resume`, `Apply` and `ForeignKeys` every database call
may fail, and a failed commit may or may not have taken effect; a crash is a failure after which
nothing more is done. Failed calls are counted, and what is promised of a run without failures is
stated too. In `DbStore` any number of attempts interleave. In `Publish` every disk
operation may fail, and other writers may change anything between two operations.

## What the code does not promise

The proofs found these properties to hold only under a condition. Each is stated with its exact
condition or a concrete counterexample.

- A rollback is saved under the hash of `up.mig`, so an edited `down.mig` is not noticed: shortened
  after an interruption, it reports success although nothing moved
  (`Resume.EditedDownScriptIsNotNoticed`; exactly when, `Resume.FinishMovesTheLedgerRow`).
- A saved position outlives a change of direction: when Up is interrupted inside a migration, an
  earlier one is rolled back and Up is run again, the statements before the position are skipped and
  success is reported (`Histories.StalePositionSkipsASegment`). The saved position of a run that may
  come next, forward or back, is harmless, whatever its script has become and whatever the tables
  hold, exactly when there is none or it is at the very start (`Histories.SavedPositionMatters`). As
  long as no attempt turns away from a saved position, any mix of directions leaves whole migrations
  with at most the next one under way (`Histories.MixedHistories`).
- A reported success does not mean whole migrations: when nothing is left to run towards the target,
  the saved position of an interrupted migration is not looked at, and its first statements stay in
  the tables (`Histories.SuccessLeavesHalfAMigration`). In such a history a success is whole
  migrations exactly when nothing was saved before it or it had something to run
  (`Histories.StillStands`, `Histories.MixedHistories`).
- `Down` is not idempotent under a lost commit acknowledgement: the failed attempt may have moved
  (`Histories.DownMayHaveMoved`), and then the retry takes back one migration more, unless there was
  only one (`Histories.DownRetriesTwice`).
- A chunked step whose `.any` names the table it walks may do more than the same step without
  `chunk`: a batch may make rows above it pending, or stop them being so
  (`ChunkWalk.SelfReferenceWritesMore`, which also reports one row too many). The two are the same on
  all data exactly when no batch changes anything for the rows above it
  (`ChunkWalk.WalksAsOneExactly`), and always when no `.any` of the step names its table
  (`ChunkWalk.ScriptReadsElsewhere`, `ChunkWalk.ReadingElsewhereIsEnough`). Interruption adds nothing
  to this: a resumed walk ends where the undisturbed walk does, for every step
  (`Resume.Backend.RunResumable`).
- On MySQL and MariaDB a text walk key is read back from the cursor exactly when each backslash in it
  stands before a `%` or a `_`; elsewhere always (`KeyLiteral.KeyReadsBackExactly`,
  `KeyLiteral.PathIsMisread`).
- The row count a chunked step reports is the number of rows exactly when no group of equal walk keys
  straddles a multiple of the batch size (`ChunkCount.ReportedExactly`); otherwise it is too low, as
  a batch also writes unfetched rows that share its last key (`ChunkCount.SharedKeyIsUndercounted`).
- PostgreSQL's infinities have sign words of their own, which the numeric decoder reads as a positive
  number: both become zero (`Numeric.InfinityReadsAsZero`). The text is right exactly for finite
  numbers and NaN (`Numeric.PgNumeric`).
- A timestamp's text means the same instant to the server exactly for the years 1 to 294276: earlier
  years have no notation here, and the two infinities are written as dates
  (`TemporalReading.TimestampReadsBack`, `TemporalReading.InfinitiesAreLost`).
- A SQLite rebuild whose ROLLBACK fails leaves the transaction open, where the pragma that should
  restore enforcement is a no-op, and an explicit rollback returns before restoring: enforcement
  comes back exactly when the transaction is over and the pragma worked
  (`ForeignKeys.Connection.CommitOff`), after an explicit rollback exactly when neither the ROLLBACK
  nor the pragma failed (`ForeignKeys.Connection.RollbackOff`).
- A response recorded after its claim's time is up goes to whoever holds the key then. On a slot that
  was swept empty it is stored under the fingerprint MAX and every real request is refused as a different one
  (`MemStore.EmptySlotRecordIsLost`, `MemStore.RecordAfterSweepIsLost`); when another request has
  claimed the key meanwhile, that request is replayed the wrong response
  (`MemStore.RecordAfterReclaimAnswersAnother`). When exactly a record stays with its own request:
  `MemStore.RecordStaysOwnExactly`.
- An abandon after the claim's time is up frees the key for whoever holds it then: the same request
  is handed the key twice, its first claim neither abandoned by it nor expired
  (`MemStore.LateAbandonFreesAnother`). When exactly an abandon changes an answer, and whose claim
  that was: `MemStore.AbandonFreesOwnExactly`.
- A call reads the clock before it takes the lock, so an earlier reading may reach the store later.
  If a later one has swept meanwhile, an unexpired claim is handed out again
  (`MemStore.LateReadingIsHandedTheKey`); exactly when, `MemStore.AnswersAgreeExactly`.
- A cursor character may be replaced by another spelling of the same digit (a capital, or a leading
  `+`) and is still accepted; any other replacement is rejected (`Cursor.ChangedPayload`,
  `Cursor.ChangedChecksum`).
- A field name without a single word is not stable: `imported_` is renamed to `imported`
  (`Identifiers.FieldIsIdempotent`).
- The cycle guard of the ordered-nest check needs each reference to name a shape of its edge's
  target; otherwise an ordered edge can be missed (`UnrolledShapes.UntypedReferenceIsMissed`). The semantic
  check reports such a reference by itself (crates/based-sema/src/check/shape/nest_ref.rs), although
  this walk still runs; the hypothesis is shown to be enough, not to be exact.

## Model

| member | source | states |
|---|---|---|
| Migration.LessTotal | crates/based-codegen/src/migrate/data/lower/chunk.rs:86-91 | walk keys are totally ordered, so "above the cursor" splits any table in two |
| Migration.LessTransitive | crates/based-codegen/src/migrate/data/lower/chunk.rs:86-91 | the walk order is transitive |
| Migration.BatchThenRest | crates/based-codegen/src/migrate/data/lower/chunk.rs:43-56 | with what the step reads of other rows fixed, writing one batch and then everything above it equals writing everything above the old cursor, for any step that leaves walk keys alone (for any step at all: `ChunkWalk.BatchThenRestExactly`) |
| Migration.BatchShrinks | crates/based-codegen/src/migrate/data/lower/chunk.rs:30-56 | after a batch exactly the rows above its last key remain pending |
| Migration.LeftIsUnfetched | crates/based-runtime/src/migrate_resume.rs:190-223 | no fetched row stays pending, and with distinct keys no unfetched row is lost |
| Migration.BatchCountsItsRows | crates/based-runtime/src/migrate_resume.rs:193-223 | fetched plus remaining never exceeds what was pending |
| Migration.BatchExists | crates/based-codegen/src/migrate/data/lower/chunk.rs:30-40 | the batch contract (first rows above the cursor, in order) can always be met, so nothing is assumed of the select that it cannot do |
| Migration.BatchPasses | crates/based-runtime/src/migrate_resume.rs:190-227 | whatever a batch makes pending, fewer rows lie above it, so every walk ends |
| ChunkCount.BatchCountsExactly | crates/based-runtime/src/migrate_resume.rs:193-223 | fetched and left rows add up to what was pending if and only if no unfetched row shares the batch's last key |
| ChunkCount.SharedKeyIsUndercounted | crates/based-runtime/src/migrate_resume.rs:193-202 | three rows under one key, two at a time: all are written and two are counted |
| ChunkCount.BatchKeyIsUnique | crates/based-codegen/src/migrate/data/lower/chunk.rs:30-40 | however ties are broken, every batch of the same rows ends at the same key |
| ChunkCount.ReportedAfterBatch | crates/based-runtime/src/migrate_resume.rs:190-223 | the count of a whole walk does not depend on how ties are broken |
| ChunkCount.ReportedExactly | crates/based-runtime/src/migrate_resume.rs:190-223 | the count of a whole walk is never too high, and is the number of rows if and only if at every multiple of the batch size some key has exactly that many rows up to it |
| ChunkCount.DistinctKeysCountAll | crates/based-runtime/src/migrate_resume.rs:190-223 | distinct walk keys are enough for every row to be counted |
| ChunkWalk.WalkedAfterBatch | crates/based-runtime/src/migrate_resume.rs:190-227 | the walk goes on alike from any batch the select may return, with the same data and the same count |
| ChunkWalk.DrainedWritesNothing | crates/based-runtime/src/migrate_resume.rs:193-198 | an empty batch means the rest of the step writes nothing |
| ChunkWalk.BatchThenRestExactly | crates/based-codegen/src/migrate/data/lower/chunk.rs:43-56 | for every step, one batch and then the rest as one statement is the whole as one statement if and only if the step makes of each row above the batch what it made of it before |
| ChunkWalk.WalksAsOneExactly | crates/based-codegen/src/migrate/data/lower/chunk.rs:30-56 | the walk comes to the one statement, for all data and cursors, if and only if no batch changes anything for the rows above it |
| ChunkWalk.ReadingElsewhereIsEnough | crates/based-codegen/src/migrate/data/lower/predicate.rs:93-128 | a step that reads no row of the table it walks comes to the one statement |
| ChunkWalk.ScriptReadsElsewhere | crates/based-codegen/src/migrate/data/lower/predicate.rs:93-128 | a step in whose filter and values no `.any` names its table reads no row of that table, whatever it reads of others |
| ChunkWalk.SelfReferenceWritesMore | crates/based-codegen/src/migrate/data/lower/predicate.rs:93-128 | for every batch size, a step that tests its own table writes two rows in batches and one as a statement |
| ChunkWalk.WalkStaysInTable | crates/based-runtime/src/migrate_resume.rs:190-227 | a walk changes no other table |
| ChunkWalk.WalkCountsExactly | crates/based-runtime/src/migrate_resume.rs:190-223 | the count of such a step is never above the rows pending, and is their number if and only if no group of equal keys straddles a batch boundary |
| ChunkWalk.ChunkMayBeDropped | crates/based-runtime/src/migrate_resume.rs:88-106 | a script whose steps all come to one statement does what it does without `chunk` |
| ChunkWalk.FinishIsStatements | crates/based-runtime/src/migrate_resume.rs:63-107 | from any saved position such a run ends where the statements that are left end |
| ChunkWalk.FreshRunIsUnchunked | crates/based-runtime/src/migrate_resume.rs:63-107 | with nothing saved, such a run ends where the run of the script without `chunk` ends |
| KeyLiteral.KeyReadsBackExactly | crates/based-codegen/src/migrate/data/lower/chunk.rs:59-66 | the server reads the fetched key from the cursor's literal if and only if it takes backslashes for plain characters or each of them stands before a `%` or `_` |
| KeyLiteral.PathIsMisread | crates/based-codegen/src/migrate/data/lower/chunk.rs:59-66 | a key that MySQL and MariaDB read as another string |
| Migration.SegmentsConcat | crates/based-runtime/src/migrate_resume.rs:51-60 | the segments concatenate back to the units |
| Migration.SegmentsMaximal | crates/based-runtime/src/migrate_resume.rs:46-60 | plain statements are grouped as far as possible and chunked steps stand alone |
| Migration.RunPlainConcat | crates/based-runtime/src/migrate.rs:625-635 | running a concatenation is running its parts in order |
| Migration.SegmentsRunTheUnits | crates/based-runtime/src/migrate_resume.rs:88-106 | running what is left segment by segment is running the units, each once |
| Migration.FreshRunIsEveryUnitOnce | crates/based-runtime/src/migrate_resume.rs:63-107 | with nothing saved, the goal of a run is every unit once, in order, then one ledger write |
| Resume.CloseKeepsFinish | crates/based-runtime/src/migrate_resume.rs:248-275 | committing a segment with its progress row, or the last one with the ledger row, loses nothing of what is left and applies nothing twice |
| Resume.BatchKeepsFinish | crates/based-runtime/src/migrate_resume.rs:193-223 | committing a batch with its cursor keeps the outcome of the whole run |
| Resume.BatchSameTotal | crates/based-runtime/src/migrate_resume.rs:196-214 | after each batch the rows counted and those the rest of the walk will count come to the same total, and fewer rows lie ahead |
| Resume.BatchWalks | crates/based-runtime/src/migrate_resume.rs:190-227 | one batch keeps the walk's invariant: same outcome ahead, position and count saved, nothing else touched |
| Resume.WalkEnds | crates/based-runtime/src/migrate_resume.rs:196-198 | when no row is left, closing the segment ends the walk with the whole count and loses nothing of the run |
| Resume.PlainCloses | crates/based-runtime/src/migrate_resume.rs:159-179 | closing a plain segment, last or not, keeps the outcome of the whole run |
| Resume.KeptJoins | crates/based-runtime/src/migrate_resume.rs:88-106 | what one segment leaves of a run, the next leaves of the whole: an interruption anywhere keeps the final outcome |
| Resume.PastTheEndDoesNothing | crates/based-runtime/src/migrate_resume.rs:88-107 | a saved position past the last segment reports success and writes nothing |
| Resume.FinishMovesTheLedgerRow | crates/based-runtime/src/migrate_resume.rs:63-107 | a finished run moves its ledger row if and only if its saved position lies inside its units |
| Resume.EditedDownScriptIsNotNoticed | crates/based-runtime/src/migrate_resume.rs:76-107 | an edited down script keeps the hash it was saved under and can report success with the migration still applied |
| Resume.Backend.Commit | crates/based-runtime/src/migrate_resume.rs:145-147 | a failed commit may still have taken effect |
| Resume.Backend.FetchBatch | crates/based-runtime/src/migrate_resume.rs:193-198 | the select fails or returns the first rows above the cursor in key order |
| Resume.Backend.Finish | crates/based-runtime/src/migrate_resume.rs:150-156 | the segment's close and its commit are one step: all of it or none |
| Resume.Backend.Statements | crates/based-runtime/src/migrate_resume.rs:159-179 | a plain segment's statements and its close commit together or not at all; it fails only when a call does or the run cannot end |
| Resume.Backend.Chunks | crates/based-runtime/src/migrate_resume.rs:182-228 | for every step, whatever fails, it keeps the run's final outcome and saves the count a later walk completes; it fails only when a call does or the run cannot end; success means the whole walk, and the count is the walk's (when that is the one statement, and the number of its rows: `ChunkWalk.WalksAsOneExactly`, `ChunkWalk.WalkCountsExactly`) |
| Resume.Backend.RunResumable | crates/based-runtime/src/migrate_resume.rs:63-107 | for every step, it succeeds if and only if no call fails and what is left from the saved position can end; success leaves the state one uninterrupted run gives; any failure leaves a state from which a re-run gives that same state; where no batch disturbs the rows above it that is the state the statements left without `chunk` give; a changed hash is refused untouched |
| Resume.Backend.RunInTx | crates/based-runtime/src/migrate.rs:588-653 | one transaction: the whole run or nothing, and the whole run if and only if no call fails and the run can end |
| Resume.Backend.RunMigration | crates/based-runtime/src/migrate.rs:555-578 | either way of running succeeds if and only if no call fails and the run can end, refines the same outcome, touches no other run's progress, and refuses a position saved under another hash untouched, naming both |
| Apply.SuffixKeepsNumber | crates/based-runtime/src/migrate_resume.rs:36-42 | a progress key's suffix leaves the migration number readable |
| Apply.ProgressKeysNeverClash | crates/based-runtime/src/migrate_resume.rs:34-43 | two runs share a progress row only if they are the same migration in the same direction |
| Apply.SortByNumberSorts | crates/based-runtime/src/migrate.rs:256-267 | sorting by number orders the migrations and loses none |
| Apply.OnlyArrangement | crates/based-runtime/src/migrate.rs:267-278 | at most one arrangement is numbered 1, 2, 3 … |
| Apply.FromSources | crates/based-runtime/src/migrate.rs:252-278 | sources load exactly when some arrangement is numbered without gaps, and load in that order |
| Apply.GuardedIsPrefix | crates/based-runtime/src/migrate.rs:447-485 | the row-by-row guards accept exactly the contiguous unedited prefixes |
| Apply.LedgerOfRows | crates/based-runtime/src/migrate.rs:468-485 | the ledger after k migrations has k rows, each on disk among the first k |
| Apply.FinishedLedger | crates/based-runtime/src/migrate_resume.rs:248-275 | finishing a run moves its own ledger row and no other |
| Apply.OthersStillFit | crates/based-runtime/src/migrate_progress.rs:44-118 | a run leaves every other saved position valid |
| Apply.NextPrefix | crates/based-runtime/src/migrate.rs:504-548 | one migration forward or back takes a prefix to the neighbouring prefix |
| Apply.MaxAppliedIsMax | crates/based-runtime/src/migrate.rs:470-500 | the highest applied number below a bound is the maximum, not just a bound |
| Apply.MaxAppliedOfPrefix | crates/based-runtime/src/migrate.rs:487-500 | on a prefix that maximum is its length, or one below the bound |
| Apply.Guard | crates/based-runtime/src/migrate.rs:447-485 | the guards pass if and only if the ledger is a prefix of what is on disk; a refusal names an edited migration with both hashes, a recorded one that is not on disk, or one passed over |
| Apply.Target | crates/based-runtime/src/migrate.rs:440-500 | a refusal moves nothing; otherwise the target number follows the direction; the database error is given if and only if reading the ledger failed |
| Apply.RollBack | crates/based-runtime/src/migrate.rs:504-523 | newest first, only above the target, the ids reported in order, stopping where no down script exists or a position is saved under another hash; it fails only when a call does or the target cannot be reached |
| Apply.RollForward | crates/based-runtime/src/migrate.rs:525-548 | oldest first, up to the target, the ids reported in order, no destructive migration without the acknowledgement, stopping where a position is saved under another hash; it fails only when a call does, the target cannot be reached or a destructive migration is in the way |
| Apply.Apply | crates/based-runtime/src/migrate.rs:434-551 | success, given if and only if no call fails, the ledger is a prefix, the target can be reached and nothing unacknowledged is destructive, ends with exactly the migrations up to the target in the ledger, one under way staying so when nothing was left to run; any failure leaves a prefix between start and target; only one phase moves anything; the report lists what moved; a refusal names what it stopped at, and a tamper error a migration, its hash on disk and another one the database has for it |
| Apply.EndsAtItsTarget | crates/based-runtime/src/migrate.rs:487-500 | success with Up records every migration, with To(n) the first n or all there are, with Down one fewer than before; a failure ends between there and the start |
| Apply.StepKeepsGoal | crates/based-runtime/src/migrate.rs:504-548 | a migration run to completion or interrupted keeps the final outcome of the whole apply |
| Apply.ReconcileUp | crates/based-runtime/src/migrate.rs:525-548 | going forward to one more migration goes on from where the shorter way ends |
| Apply.ReconcileDown | crates/based-runtime/src/migrate.rs:504-523 | rolling back one more migration goes on from where the shorter way ends |
| Apply.Proceed | crates/based-runtime/src/migrate.rs:504-548 | at every point of an attempt the database is where whole migrations lead, with at most the next one under way |
| Histories.RetriesReachTheGoal | crates/based-runtime/src/migrate.rs:434-551 | any number of failed attempts at Up or To, retried until one succeeds, end where one undisturbed attempt would, with a prefix throughout |
| Histories.GoalIsEveryUnitOnce | crates/based-runtime/src/migrate.rs:525-548 | when no migration to come has a saved position, going forward is every pending unit once, in order |
| Histories.GoalIsUnchunked | crates/based-runtime/src/migrate.rs:525-548 | where no batch disturbs the rows above it, that is running the pending scripts without `chunk` |
| Histories.DownMayHaveMoved | crates/based-runtime/src/migrate.rs:487-523 | a Down whose rollback took effect may still fail, for every guarded ledger |
| Histories.DownRetriesTwice | crates/based-runtime/src/migrate.rs:487-500 | the retry of Down ends where the attempt was to end if and only if nothing had moved or there was only one migration; otherwise it takes back one more |
| Histories.SavedPositionMatters | crates/based-runtime/src/migrate_resume.rs:76-106 | taking up a run that may come next, forward or back, gives what running all of it gives, for all units and tables, if and only if nothing is saved or the position is at the very start |
| Histories.FinishIsWhole | crates/based-runtime/src/migrate_resume.rs:63-107 | with nothing saved, finishing a run is running all of it |
| Histories.GoalIsWhole | crates/based-runtime/src/migrate.rs:504-548 | from where nothing is saved, whatever an apply reaches is whole migrations |
| Histories.StillStands | crates/based-runtime/src/migrate.rs:434-551 | one more attempt in any direction, interrupted anywhere, keeps the database where whole migrations lead with at most one under way, if it takes up what is saved; a success is whole migrations if and only if nothing was saved or it had something to run |
| Histories.MixedHistories | crates/based-runtime/src/migrate.rs:434-551 | any mix of directions and interruptions leaves whole migrations with at most the next one under way, no unit skipped or repeated, as long as no attempt turns away from a saved position; a final success leaves none under way if and only if nothing was saved before it or it had something to run |
| Histories.StalePositionSkipsASegment | crates/based-runtime/src/migrate.rs:487-548 | an attempt that does turn away: Up later reports success with a segment never run |
| Histories.StandsWhole | crates/based-runtime/src/migrate.rs:487-551 | where whole migrations lead with at most one under way, none is if and only if nothing is saved |
| Histories.SuccessLeavesHalfAMigration | crates/based-runtime/src/migrate.rs:487-551 | a success that runs nothing while an interrupted migration's first segment stays in the tables |
| ForeignKeys.Connection.Execute | crates/based-runtime/src/migrate_foreign_keys.rs:1-9 | the pragma is a no-op inside a transaction; a failed COMMIT or ROLLBACK commits nothing but may end the transaction |
| ForeignKeys.Connection.Open | crates/based-runtime/src/migrate_foreign_keys.rs:24-53 | enforcement goes off only for a rebuild on an enforcing connection, and is back if opening fails and the pragma works; without a failed call it opens |
| ForeignKeys.Connection.Abandon | crates/based-runtime/src/migrate_foreign_keys.rs:62-65 | nothing is committed; enforcement is back if and only if the transaction ended and the pragma worked |
| ForeignKeys.Connection.CommitOff | crates/based-runtime/src/migrate_foreign_keys.rs:81-93 | Ok means the check was empty at the commit point and enforcement is back, and without earlier failures is given if and only if no call fails and the check is empty; Err means nothing committed unless the pragma after COMMIT failed |
| ForeignKeys.Connection.RollbackOff | crates/based-runtime/src/migrate_foreign_keys.rs:95-98 | enforcement is back if and only if neither the ROLLBACK nor the pragma failed |
| ForeignKeys.Connection.Migrate | crates/based-runtime/src/migrate_foreign_keys.rs:24-98 | a whole migration succeeds if and only if no call fails, the body can run and the check finds nothing; success is the body's whole effect and checked, failure is none, enforcement restored whenever ROLLBACK and the pragma work |
| MemStore.Store.SweepIfDue | crates/based-runtime/src/idempotency.rs:219-224 | a due sweep drops exactly the expired entries and sets the next one |
| MemStore.Store.BeginClaim | crates/based-runtime/src/idempotency.rs:281-309 | the answer and new entries are those of the specification after a sweep |
| MemStore.Store.RecordResponse | crates/based-runtime/src/idempotency.rs:311-331 | a response is stored under the claim's fingerprint, or under MAX when the claim is gone |
| MemStore.Store.AbandonClaim | crates/based-runtime/src/idempotency.rs:333-336 | abandoning frees the slot and nothing else |
| MemStore.ClaimStays | crates/based-runtime/src/idempotency.rs:281-336 | in any run a claim stays under its own fingerprint until somebody abandons it or it expires |
| MemStore.NoSecondFreshUndisturbed | crates/based-runtime/src/idempotency.rs:281-336 | in any run a key is handed out twice only if somebody abandoned it or the first claim outlived its time |
| MemStore.OnlyOwnSettles | crates/based-runtime/src/idempotency.rs:281-336 | in a disciplined run nobody but its holder records or abandons on a standing claim |
| MemStore.NoSecondFresh | crates/based-runtime/src/idempotency.rs:281-336 | in a run where holders settle only their own unexpired claims, once, a key is handed out twice only if the first holder abandoned it, or the time of its claim and of its recorded response is up |
| MemStore.RecordStays | crates/based-runtime/src/idempotency.rs:311-331 | a recorded response stays, under its claim's fingerprint, until its own time is up |
| MemStore.RecordedIsReplayed | crates/based-runtime/src/idempotency.rs:281-331 | until then every repeat of the request is answered that response and every other request is refused |
| MemStore.AnsweredExactly | crates/based-runtime/src/idempotency.rs:281-336 | what a begin is answered is decided, in both directions, by the last request handed the key and what it did since |
| MemStore.DisciplinedRecordsOwn | crates/based-runtime/src/idempotency.rs:311-336 | a disciplined run has only records by holders of their own standing claims |
| MemStore.DoneWasRecorded | crates/based-runtime/src/idempotency.rs:311-331 | every done entry goes back to a record that no later call changed |
| MemStore.ReplayIsTheRecordedResponse | crates/based-runtime/src/idempotency.rs:281-331 | every replay is the response recorded by a claim with the same fingerprint |
| MemStore.StepAgrees | crates/based-runtime/src/idempotency.rs:219-336 | a step keeps the swept store in agreement with the one that never sweeps |
| MemStore.RecordAgreesExactly | crates/based-runtime/src/idempotency.rs:311-331 | recording keeps that agreement if and only if the claim had not been swept (or was made under MAX) |
| MemStore.RecordFindsClaim | crates/based-runtime/src/idempotency.rs:311-331 | a record by the holder of an unexpired claim finds that claim |
| MemStore.SweepingIsInvisible | crates/based-runtime/src/idempotency.rs:219-224 | on every run with only such records each begin is answered as by a store that never sweeps |
| MemStore.HeldEntriesAreRecent | crates/based-runtime/src/idempotency.rs:219-224 | with a steady clock, after a begin at t every entry held expires later than t − ttl |
| MemStore.HeldUnderLastClaim | crates/based-runtime/src/idempotency.rs:281-331 | in every run an entry carries the fingerprint of the last request handed its key, or MAX |
| MemStore.RecordStaysOwnExactly | crates/based-runtime/src/idempotency.rs:311-331 | in every run a record is replayed to no other request if and only if it finds the slot empty or under MAX, or the last request handed the key since its claim was the same one |
| MemStore.EmptySlotRecordIsLost | crates/based-runtime/src/idempotency.rs:311-331 | a record on an empty slot is replayed to no real request: all are refused as different until it expires |
| MemStore.RecordAfterSweepIsLost | crates/based-runtime/src/idempotency.rs:311-331 | a run where that happens and a store without sweeping would have replayed |
| MemStore.RecordAfterReclaimAnswersAnother | crates/based-runtime/src/idempotency.rs:311-331 | a run where a late record answers another request, with or without sweeping |
| MemStore.ClaimInIsLast | crates/based-runtime/src/idempotency.rs:281-336 | in every run an entry goes back to the last claim, under its own fingerprint, or is a stray record's under MAX |
| MemStore.AbandonFreesOwnExactly | crates/based-runtime/src/idempotency.rs:333-336 | in every run an abandon changes what a later request is answered if and only if it finds an unexpired entry; unless that is a stray record's, it frees its own claim if and only if the key was not handed out since, and another's if and only if it was |
| MemStore.LateAbandonFreesAnother | crates/based-runtime/src/idempotency.rs:333-336 | a run where a late abandon hands a request its own standing claim's key again |
| MemStore.AnswersAgreeExactly | crates/based-runtime/src/idempotency.rs:281-309 | a begin is answered as without sweeping if and only if the entry swept from its slot is expired by its own reading |
| MemStore.LateReadingIsHandedTheKey | crates/based-runtime/src/idempotency.rs:281-309 | a run where a reading taken before the lock is handed a swept but unexpired key |
| DbStore.StepShape | crates/based-runtime/src/idempotency.rs:578-658 | a step touches its own attempt, at most its own index entry, and commits only a recorded response |
| DbStore.StepKeepsHolders | crates/based-runtime/src/idempotency.rs:578-638 | exactly the open claims hold index entries, and a held slot has no committed row |
| DbStore.StepGrows | crates/based-runtime/src/run/mutation.rs:176-213 | committed rows and effects are never lost or rewritten |
| DbStore.StepKeepsRows | crates/based-runtime/src/idempotency.rs:578-658 | committed rows and committed effects match one to one, each row with its response |
| DbStore.StepKeepsRan | crates/based-runtime/src/run/mutation.rs:176-213 | only an attempt that has ended has committed effects |
| DbStore.StepKeepsTold | crates/based-runtime/src/idempotency.rs:155-191 | what each attempt was told is what the committed row says |
| DbStore.RunsKeepInv | crates/based-runtime/src/idempotency.rs:155-191 | every interleaving of any number of attempts keeps the invariant |
| DbStore.AtMostOnce | crates/based-runtime/src/idempotency.rs:155-191 | each key has at most one committed set of effects; every success with the same fingerprint got that response; a mismatch, a miss or a replay committed nothing |
| DbStore.CommittedKeyReplays | crates/based-runtime/src/idempotency.rs:578-638 | a claim on a committed key is never blocked and replays if and only if the request is the same |
| DbStore.DoneMeansAcknowledged | crates/based-runtime/src/run/mutation.rs:176-213 | in every interleaving an attempt is told a response if and only if its commit of it was acknowledged, and it wrote that response itself |
| DbStore.EffectsAreCommits | crates/based-runtime/src/run/mutation.rs:176-213 | the committed effects are exactly those of commits that took effect, acknowledged or not |
| DbStore.WholeAttempt | crates/based-runtime/src/run/mutation.rs:176-213 | on a free key an attempt goes all the way: its row and effect are left unless the commit is refused, and it is told so only when acknowledged |
| DbStore.MissOrAbort | crates/based-runtime/src/run/mutation.rs:199-203 | a write that matches nothing and an attempt given up leave no row, no effect and the key free |
| Numeric.PgNumeric | crates/based-runtime/src/postgres.rs:335-400 | for finite numbers the string is the number, each group times its own power of 10000, truncated toward zero at dscale, with dscale fraction digits, no extra leading zero and no "-0"; the text is what the server means if and only if the sign word is that of a finite number or NaN; malformed buffers are shown in hexadecimal |
| Numeric.SentIsRead | crates/based-runtime/src/postgres.rs:335-362 | every number the server can send, written big-endian field by field, is the number the decoder's specification reads |
| Numeric.ShowsExactly | crates/based-runtime/src/postgres.rs:358-372 | showing the sum of the groups' worth is decoding their digit run with the point where the weight puts it |
| Numeric.InfinityReadsAsZero | crates/based-runtime/src/postgres.rs:341-347 | an infinity is read as 0 |
| Numeric.DecimalIsNoWord | crates/based-runtime/src/postgres.rs:389-399 | no decimal string is the spelling of an infinity or NaN |
| Numeric.DigitRun | crates/based-runtime/src/postgres.rs:356-359 | the digit run spells exactly the base-10000 number |
| Numeric.Split | crates/based-runtime/src/postgres.rs:360-375 | whole and fraction digits of the run, wherever the point falls |
| Numeric.Normalised | crates/based-runtime/src/postgres.rs:377-398 | trimming and rescaling the digits truncates the value and keeps its sign rule |
| Numeric.SpellingIsUnique | crates/based-runtime/src/postgres.rs:335-400 | only one string spells a number at a scale |
| Numeric.TruncationIsUnique | crates/based-runtime/src/postgres.rs:383-387 | only one number is the truncation |
| Numeric.DecodingIsUnique | crates/based-runtime/src/postgres.rs:335-400 | the specification of the decoder determines its output |
| Numeric.TrailingZeroGroup | crates/based-runtime/src/postgres.rs:356-375 | a zero group at the end changes nothing |
| Numeric.PaddingChangesNothing | crates/based-runtime/src/postgres.rs:335-400 | two buffers that differ by a leading or trailing zero group decode to the same string |
| Calendar.YearOfEraExact | crates/based-runtime/src/postgres.rs:417-428 | the division formula inverts the year starts of a 400-year era exactly |
| Calendar.EveryDateIsReached | crates/based-runtime/src/postgres.rs:417-428 | every valid Gregorian date (month lengths in section 5.7 of RFC 3339, leap years in its Appendix C) is the image of its own day count |
| Calendar.EveryDayHasADate | crates/based-runtime/src/postgres.rs:417-428 | every integer maps to a valid date and is recovered from it |
| Calendar.NextDayCounts | crates/based-runtime/src/postgres.rs:417-428 | the calendar's next day is the next day count |
| Calendar.DaysFollowTheCalendar | crates/based-runtime/src/postgres.rs:417-428 | 0 is 1970-01-01 and each integer is followed by the next calendar day |
| Calendar.StrictlyIncreasing | crates/based-runtime/src/postgres.rs:417-428 | earlier days have earlier dates |
| Calendar.UnsignedAgrees | benchmarks/embedded-runtime/generated/client.rs:1026-1037 | the generated client's unsigned calendar agrees on every day from 1970 on |
| Calendar.TimeRecombines | crates/based-runtime/src/postgres.rs:292-304 | the fields are a time of day and recombine to the microseconds |
| Calendar.TimestampRecombines | crates/based-runtime/src/postgres.rs:273-288 | date and time recombine to the instant, before and after the epoch |
| Calendar.PgTimestamp | crates/based-runtime/src/postgres.rs:273-288 | eight bytes decode to the text of the date and time that many microseconds from 2000-01-01; any other length is shown in hexadecimal |
| Calendar.PgDate | crates/based-runtime/src/postgres.rs:307-313 | four bytes decode to the text of the date that many days from 2000-01-01 |
| Calendar.SignedReadsBack | crates/based-runtime/src/postgres.rs:402-412 | a big-endian two's-complement integer is read back from any width it fits |
| Calendar.EpochIsTwoThousand | crates/based-runtime/src/postgres.rs:247-250 | count zero is 2000-01-01 00:00:00 |
| Calendar.PgTime | crates/based-runtime/src/postgres.rs:292-304 | eight bytes decode to the text of that time; a negative time has its sign on every field |
| Calendar.TimestampTextFaithful | crates/based-runtime/src/postgres.rs:273-288 | different instants have different texts |
| Calendar.DateFaithful | crates/based-runtime/src/postgres.rs:307-313 | different dates have different texts |
| TemporalReading.DateReadsBack | crates/based-runtime/src/postgres.rs:307-313 | the server reads a date's text back as that date if and only if its year is 1 to 5874897 |
| TemporalReading.DayCountReadsBack | crates/based-runtime/src/postgres.rs:307-313 | a day count's text is read back as the date that many days from 2000-01-01 if and only if its year is 1 to 5874897 |
| TemporalReading.TimeReadsBack | crates/based-runtime/src/postgres.rs:292-304 | the text of a time is read back if and only if its count is within one day, 24:00:00 included |
| TemporalReading.TimestampReadsBack | crates/based-runtime/src/postgres.rs:270-288 | the server reads a timestamp's text back as the same instant if and only if its year is at least 1 and it is in the server's range |
| TemporalReading.InfinitiesAreLost | crates/based-runtime/src/postgres.rs:270-288 | the two infinite timestamps are not read back |
| Cursor.Fnv1a | crates/based-runtime/src/cursor.rs:54-61 | the loop computes the 64-bit FNV-1a chain |
| Cursor.PublishedValues | crates/based-runtime/src/cursor.rs:52-61 | the chain gives the published FNV-1a values |
| Cursor.MixLosesNothing | crates/based-runtime/src/cursor.rs:54-61 | each step is injective in the hash and in the byte |
| Cursor.SubstitutionIsDetected | crates/based-runtime/src/cursor.rs:54-61 | changing any one byte changes the checksum |
| Cursor.Hex | crates/based-runtime/src/cursor.rs:63-69 | the loop writes two lower-case digits a byte |
| Cursor.HexRoundTrip | crates/based-runtime/src/cursor.rs:63-79 | every byte sequence reads back |
| Cursor.FallbackIsHex | crates/based-runtime/src/postgres.rs:430-438 | the decoders' hexadecimal fallback is the same text and is read back |
| Cursor.RoundTrip | crates/based-runtime/src/cursor.rs:21-50 | decoding an encoded value list gives it back, for every list |
| Cursor.AcceptedIsChecked | crates/based-runtime/src/cursor.rs:30-50 | an accepted cursor's checksum is that of its payload, and its arity is right |
| Cursor.ChangedPayload | crates/based-runtime/src/cursor.rs:21-79 | replacing one payload character is accepted if and only if it spells the same digit |
| Cursor.ChangedChecksum | crates/based-runtime/src/cursor.rs:21-79 | replacing one checksum character is accepted if and only if it spells the same digit |
| ExprTree.ConnectivesAreWritten | crates/based-fmt/src/expr.rs:53-95 | `or`, `and` and `not` are written by their words, with parentheses where they are needed |
| ExprTree.ComparisonsAreWritten | crates/based-fmt/src/expr.rs:97-111 | each comparison is written with its own sign or word |
| ExprTree.ArithmeticIsWritten | crates/based-fmt/src/expr.rs:9-49 | sums, products and concatenation are written with their usual signs and precedence |
| ExprRoundTrip.ValueRoundTrip | crates/based-parser/src/parser/value.rs:4-111 | every printed value reads back, negative literals and calls included |
| ExprRoundTrip.ListRoundTrip | crates/based-parser/src/parser/call_args.rs:5-18 | every printed value list reads back |
| ExprRoundTrip.NotABy | crates/based-parser/src/parser/predicate.rs:77-110 | a printed inner predicate is never read as a leading `by` clause |
| ExprRoundTrip.LikeStaysLike | crates/based-parser/src/parser/predicate.rs:150-162 | a pattern column named `all` or `any` is not read as a quantifier |
| ExprRoundTrip.PredicateRoundTrip | crates/based-fmt/src/expr.rs:53-95 | every printed predicate reads back as the same tree, nested `.any` included, and reading stops where printing did |
| ExprRoundTrip.ExprRoundTrips | crates/based-fmt/src/expr.rs:9-49 | every printed computed expression reads back as the same tree |
| ExprRoundTrip.RhsRoundTrip | crates/based-fmt/src/expr.rs:115-143 | every printed assignment reads back as the same tree |
| ExprShortest.PredicatePrintsShortest | crates/based-fmt/src/expr.rs:53-95 | whatever spelling was read, the printed one reads back and is no longer: no printed parenthesis can be dropped |
| ExprShortest.ExprPrintsShortest | crates/based-fmt/src/expr.rs:9-49 | the same for computed expressions |
| ExprShortest.RhsPrintsShortest | crates/based-fmt/src/expr.rs:119-143 | the same for assignment arithmetic |
| Quoting.Unquote | crates/based-parser/src/parser/unquote.rs:2-17 | the loop decodes exactly the backslash pairs between the quotes |
| Quoting.QuoteEscapes | crates/based-catalog-bsl/src/identifier.rs:104-106 | replacing backslashes first, then quotes, escapes each character once |
| Quoting.TokenEndIsForced | crates/based-parser/src/lexer.rs:31-32 | no string token is the start of another |
| Quoting.QuotedReadsBack | crates/based-catalog-bsl/src/identifier.rs:104-106 | a quoted value is one token whatever follows, and unescapes to the value |
| Quoting.QuoteIsInjective | crates/based-catalog-bsl/src/identifier.rs:104-106 | different values are quoted differently |
| Quoting.OnlyNeededEscapes | crates/based-parser/src/parser/unquote.rs:2-17 | unescaping and requoting gives a token back if and only if it escapes only quotes and backslashes |
| Defaults.StripOuter | crates/based-catalog-bsl/src/defaults.rs:48-53 | the loop strips every outer layer |
| Defaults.StripRemovesLayers | crates/based-catalog-bsl/src/defaults.rs:48-53 | any number of spaced parentheses around a bare text are removed |
| Defaults.StripIsLayers | crates/based-catalog-bsl/src/defaults.rs:48-53 | nothing but such layers is removed, and none is left |
| Defaults.TrimSplits | crates/based-catalog-bsl/src/defaults.rs:13 | trimming removes only space, from both ends |
| Defaults.Decode | crates/based-catalog-bsl/src/defaults.rs:75-84 | the decoding loop against its specification |
| Defaults.DecodedIff | crates/based-catalog-bsl/src/defaults.rs:70-84 | a body decodes to a value if and only if it is that value with quotes doubled |
| Defaults.TextLiterals | crates/based-catalog-bsl/src/defaults.rs:68-85 | besides `null`, a text column accepts exactly the SQL character strings (section 5.3 of ISO/IEC 9075-2), backslashes only on SQLite |
| Defaults.Render | crates/based-catalog-bsl/src/defaults.rs:5-34 | the whole import of one default, reported as unsupported exactly when it is not a literal |
| DefaultReading.AcceptedIffDenotes | crates/based-catalog-bsl/src/defaults.rs:55-101 | a default is accepted if and only if it spells a value of its type: a word in letters of either case, a sign and digits within 64 bits, a decimal, an SQL string |
| DefaultReading.AcceptedReadsBack | crates/based-parser/src/parser/value.rs:74-111 | the imported literal is read by the BSL grammar as one literal with the SQL text's value, for every type |
| DefaultReading.DenotesOne | crates/based-catalog-bsl/src/defaults.rs:55-101 | a default spells one value at most |
| DefaultReading.TextDefaultSurvives | crates/based-catalog-bsl/src/defaults.rs:5-85 | however the catalog shows a text default, its value survives the import and the lexer |
| DefaultReading.AcceptedTextDefault | crates/based-catalog-bsl/src/defaults.rs:5-85 | every accepted non-null text default was shown as one SQL string with the imported value |
| DefaultReading.SignedConstant | crates/based-catalog-bsl/src/defaults.rs:37-46 | a constant PostgreSQL shows as a quoted cast is imported as the constant |
| Identifiers.SplitWords | crates/based-catalog-bsl/src/identifier.rs:2-35 | the splitting loop against its specification |
| Identifiers.WordsSpellTheName | crates/based-catalog-bsl/src/identifier.rs:2-35 | the words lose and add no letter, for any Unicode name |
| Identifiers.WordsAreClean | crates/based-catalog-bsl/src/identifier.rs:2-35 | every word is non-empty small letters and digits |
| CamelCase.WordsOfCamel | crates/based-catalog-bsl/src/identifier.rs:8-24 | words written with capitals come back, those that cannot be told apart as one |
| CamelCase.CamelSplitsExactly | crates/based-catalog-bsl/src/identifier.rs:8-24 | splitting undoes writing words with capitals if and only if each is longer than one character or the next goes on with a small letter |
| CamelCase.AcronymThenWord | crates/based-catalog-bsl/src/identifier.rs:8-24 | a run of capitals before a capitalised word is a word of its own |
| Identifiers.ModelIsUpperIdent | crates/based-catalog-bsl/src/identifier.rs:37-52 | every model name is one upper-case identifier token and no reserved word |
| Identifiers.FieldIsLowerIdent | crates/based-catalog-bsl/src/identifier.rs:54-63 | every field name is one lower-case identifier token and no reserved word |
| Identifiers.WordsOfJoined | crates/based-catalog-bsl/src/identifier.rs:54-63 | splitting undoes joining with underscores |
| Identifiers.FieldIsIdempotent | crates/based-catalog-bsl/src/identifier.rs:54-63 | naming a field name again changes nothing if and only if the name has a word |
| Names.KeysDiffer | crates/based-catalog-bsl/src/names.rs:99-113 | two numbered candidates never share a key, folded or not |
| Names.CandidatesCount | crates/based-catalog-bsl/src/names.rs:99-113 | a taken name is numbered from 2 on |
| Names.Pigeonhole | crates/based-catalog-bsl/src/names.rs:99-113 | candidates all in use are at most as many as the used names |
| Names.Allocate | crates/based-catalog-bsl/src/names.rs:99-113 | terminates with the first unused candidate and records its key |
| Names.AllocatedModel | crates/based-catalog-bsl/src/names.rs:19-20 | a numbered model name is still an identifier token |
| Names.AllocatedField | crates/based-catalog-bsl/src/names.rs:39-44 | a numbered field name is still an identifier token |
| Names.OwnFields | crates/based-catalog-bsl/src/names.rs:21-49 | columns get distinct names of their own; `id` is the column that alone is the primary key and is generated, and nothing else |
| Names.GeneratedKeyExactly | crates/based-catalog-bsl/src/names.rs:21-33 | a column becomes `id` if and only if it alone is the primary key and its first column of that name is generated |
| Names.UnsharedStandsAlone | crates/based-catalog-bsl/src/names.rs:75-84 | a composite key judged unshared has no column in any other |
| Names.RenamingCollides | crates/based-catalog-bsl/src/names.rs:85-95 | renaming one key's columns joins exactly those columns |
| Names.CompositeRelations | crates/based-catalog-bsl/src/names.rs:64-97 | two columns share a field if and only if they belong to one composite key that shares no column |
| Names.NameTable | crates/based-catalog-bsl/src/names.rs:18-58 | one table's names: valid, fresh, and shared only as above |
| Names.Registry | crates/based-catalog-bsl/src/names.rs:13-60 | model names and file names are pairwise distinct ignoring ASCII case, and each table's fields are as promised |
| ShapeWalk.FollowHops | crates/based-codegen/src/dialect_check.rs:145-163 | the far side of a flatten, or none on a malformed path |
| ShapeWalk.ShapesOf | crates/based-codegen/src/dialect_check.rs:30-36 | every declared name is looked up to a declaration of that name |
| ShapeWalk.LastOfAName | crates/based-codegen/src/dialect_check.rs:30-36 | of several shapes of one name the last counts |
| ShapeWalk.Walker.Body | crates/based-codegen/src/dialect_check.rs:69-115 | the walk terminates on cyclic shapes, restores its stack and appends the specified complaints |
| ShapeWalk.Walker.Enter | crates/based-codegen/src/dialect_check.rs:92-104 | entering a shape leaves fewer shapes to enter, and leaving it restores the stack |
| ShapeWalk.Check | crates/based-codegen/src/dialect_check.rs:22-51 | the whole check, empty on every target but MySQL |
| UnrolledShapes.ReportedIsReached | crates/based-codegen/src/dialect_check.rs:69-115 | every complaint of a walk is the end of some path through the unrolled shapes |
| UnrolledShapes.ReachedIsCovered | crates/based-codegen/src/dialect_check.rs:69-115 | every ordered edge reached on any path is inline in some declared shape |
| UnrolledShapes.CycleCutLosesNothing | crates/based-codegen/src/dialect_check.rs:83-105 | with typed references, a complaint is made if and only if some unrolling, however deep, deserves it |
| UnrolledShapes.AcceptedExactly | crates/based-codegen/src/dialect_check.rs:22-51 | a project is accepted if and only if no unrolling reaches an ordered to-many edge, and always off MySQL |
| UnrolledShapes.EdgesFromTheSchema | crates/based-codegen/src/dialect_check.rs:117-168 | from the schema alone: a nest is complained of if and only if its relation is inverse, not through a unique column, and sorted by itself or its model, a flatten if and only if its far model is sorted; and where each leads |
| UnrolledShapes.ReportedUnrolls | crates/based-codegen/src/dialect_check.rs:22-51 | without that hypothesis every complaint is still deserved |
| UnrolledShapes.UntypedReferenceIsMissed | crates/based-codegen/src/dialect_check.rs:83-105 | some hypothesis is needed: an untyped reference can hide an ordered edge from this walk |
| FilterWalk.Walker.AnyEdge | crates/based-codegen/src/any_write_check.rs:148-185 | the child a path ranges over, and the complaint about a custom join into the written table |
| FilterWalk.Walker.Leaf | crates/based-codegen/src/any_write_check.rs:103-123 | each to-many hop of a leaf path is checked as an implicit `.any` |
| FilterWalk.Walker.Walk | crates/based-codegen/src/any_write_check.rs:67-100 | the predicate walk against its specification, with the filter stack restored |
| FilterWalk.Walker.Filter | crates/based-codegen/src/any_write_check.rs:125-145 | a filter is expanded at most once on a path |
| FilterWalk.Walker.Writes | crates/based-codegen/src/any_write_check.rs:45-63 | every write with a predicate is checked, inside transactions too |
| FilterWalk.Check | crates/based-codegen/src/any_write_check.rs:15-35 | the whole check, empty off the MySQL family |
| FilterWalk.OnTheFly | crates/based-codegen/src/any_write_check.rs:67-145 | for filters that do not recur, expanding while walking reports what the fully expanded predicate reports |
| FilterWalk.FiltersAreMacros | crates/based-codegen/src/any_write_check.rs:15-145 | the check of a project equals the check of the project with every filter written out |
| UnrolledFilters.ReportedIsMarked | crates/based-codegen/src/any_write_check.rs:67-185 | every complaint is of a place in the predicate, filters unrolled, whose hop is an inverse relation with a custom join into the written table, all from the schema alone |
| UnrolledFilters.MarkedIsReported | crates/based-codegen/src/any_write_check.rs:67-185 | every such place is complained of, for filters that recur too, unrolled as the generated SQL has them |
| UnrolledFilters.CheckExactly | crates/based-codegen/src/any_write_check.rs:15-185 | a project is complained of if and only if it is for the MySQL family and some write, in a transaction or not, has such a place |
| Publish.ReplacedAt | crates/based-artifacts/src/publish.rs:43-65 | replacing files changes those and nothing else |
| Publish.Disk.Current | crates/based-artifacts/src/publish.rs:69-96 | whether a destination is up to date, missing, a user's, or not a file |
| Publish.Disk.Stage | crates/based-artifacts/src/stage.rs:11-27 | staging adds at most missing directories above the destination, and all of them when it succeeds |
| Publish.Disk.Persist | crates/based-artifacts/src/publish.rs:58-65 | one file is replaced whole or left as it was, and what stood there at that moment is noted |
| Publish.Disk.Preflight | crates/based-artifacts/src/publish.rs:5-27 | distinct, marked destinations are sorted into up to date and changed, and nothing is written |
| Publish.Disk.StageAll | crates/based-artifacts/src/publish.rs:38-42 | staging changes no existing file, and every directory is there when it succeeds |
| Publish.Disk.Replace | crates/based-artifacts/src/publish.rs:43-66 | whatever other writers do, the report lists exactly what was written, and an unforced run writes over a user's file if and only if another writer put it there between the ownership check and the replacement |
| Publish.Disk.Publish | crates/based-artifacts/src/publish.rs:5-67 | under any interference the report is exactly what was replaced, an unforced run writes over a user's file only as `Publish.Disk.Replace` says, and Check replaces nothing; with no other writer Ok means every destination holds its bytes, a failure before replacing changes no file, and a refusal names a user's file; with nothing failing and nothing in the way Write succeeds |
| Publish.StillAnswered | crates/based-artifacts/src/publish.rs:38-45 | making directories changes no answer about a destination that is above no other |
| Lines.Locate | crates/based-cli/src/render.rs:49-70 | the scanning resolver agrees with the counting one on line and column, and its text is exactly that line |
| Lines.LineStarts | crates/based-fmt/src/printer.rs:27-34 | the index built by the loop |
| Lines.BinarySearch | crates/based-fmt/src/printer.rs:54-59 | found, or where it would be inserted |
| Lines.IndexCountsNewlines | crates/based-project/src/presentation.rs:13-18 | a line index entry around an offset is the newline count before it |
| Lines.LineOf | crates/based-fmt/src/printer.rs:54-59 | the binary search gives the same line as the counting resolver, for every offset |

## Left out

- MariaDB and MySQL DDL, which commits implicitly: the exactly-once results are for transactional SQL, as the code itself says (crates/based-runtime/src/migrate.rs:586-587).
- Two appliers at once on one database: the code takes no lock for it.
- Real drivers, pools, network and SQL text: a statement is a function on tables that succeeds or fails; the batch select and the range write of a chunked step are the contracts their SQL states.
- Resume.Backend.Chunks: foreign-key cascades of a chunked `delete`, and triggers: a batch writes rows of the walked table only. An update leaves walk keys alone, as the check of chunked steps demands (crates/based-codegen/src/migrate/data/check/chunk.rs:30-39).
- Resume.Backend.FetchBatch: the cursor's literals mean the keys fetched; when they do is `KeyLiteral.KeyReadsBackExactly`, and a key that is read as another may bring the same batch back for ever.
- Freshly minted ids bound to a statement: a statement's effect is a fixed function, so a re-run of a failed statement mints the same ids in the model.
- The `i64`/`usize` conversions of the saved segment and row counts, and 64-bit overflow of dates at the far ends of `i64`: integers are unbounded there.
- ForeignKeys.Connection.Migrate: not joined to `Resume`, whose transactions are atomic steps; the two models meet at "commit takes effect or not".
- Garbage collection of the durable idempotency table, and its snapshot details under repeatable read.
- Numeric.PgNumeric: digit groups outside 0 to 9999, which no server sends, are not described.
- DbStore.AtMostOnce: deadlock backoff timing is left out; a retry is a step back to the start.
- Cursor.RoundTrip: JSON text is an abstract lossless codec, and cursor text is ASCII.
- ExprRoundTrip.PredicateRoundTrip: tokens, not characters: white space and the lexing of numbers and identifiers are not part of it; raw SQL bodies are opaque and enum labels in any case are not read.
- DefaultReading.AcceptedReadsBack: white space between a sign and its number is not modelled, nor the choice between a literal, a function call and an enum default that comes before it.
- FilterWalk.OnTheFly: for filters that recur there is no fully expanded predicate; what is reported of them is `UnrolledFilters.CheckExactly`.
- Publish.Disk.Publish: different paths are different files; two destinations that reach one file through a linked directory or `..` pass the duplicate check (crates/based-artifacts/src/publish.rs:10), and then only the last one's bytes are there.
- Publish.Disk.Stage: file permissions and the temporary file's name are left out.
- The JSON ownership marker of OpenAPI output is a parameter, as is the digest of a migration script.
- Formatting whole files, comment placement, snapshot diffing, SQL rendering, semantic analysis, the HTTP listener, the language server and the command line.
