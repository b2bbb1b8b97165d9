# Crash-resumable batch engines: a verified model

This project models, in Dafny, the deterministic batch engines and the migration runner of the
recruitment repository, and proves what they promise: that interrupted work resumes without being
lost or repeated, that concurrent changes are not overwritten, that limits hold over all sessions,
and that the greedy choices are as good as they can be. The network, the models, the clock and the
other writers are parameters or arbitrary choices, so that each theorem holds for all of them.

| file | component |
|---|---|
| `SqlSplit.dfy` | the SQL lexer and splitter of the migration runner |
| `MigrationLedger.dfy` | the ledger protocol, alone and with several appliers, faults and crashes |
| `ScoreRepair.dfy` | the write-ahead journal and the compare-and-swap of the legacy score repair |
| `HydrationRows.dfy` | deduplication, the row of each record, and reuse of one response for a group |
| `HydrationScheduler.dfy` | the hydration scheduler: queue, pool, waiters, counters, checkpoints, resume |
| `JdRepairEval.dfy` | the budgeted evaluator with one reserved slot per call |
| `RoundProbe.dfy` | the regression probe with its attempt limit and circuit breaker |
| `BatchPacking.dfy` | screening and packing of scoring batches |
| `CompanySelection.dfy` | the three-bucket company selection |
| `DeadlineWindow.dfy` | the bounded window under a deadline and the coverage report around it |
| `EvaluationIndex.dfy` | the evaluation index with its redirect aliases |
| `IdentityMerge.dfy` | the merge of duplicate jobs |

Loops of the program are loops here, over fields of a class where the program keeps an object or
durable state, and are proved against functions or state machines; the lemmas then say what those
functions and machines do over all inputs and runs. A crash takes a run back to any of its durable
states: each history is recorded state by state, and `Crash(k)` continues from the `k`-th.

`dafny verify dfyconfig.toml` checks the whole project.

## Where the code falls short of its promise

- A repair session does not add its own proposals to its index (scripts/repair_legacy_matching_scores.py:284-285), so
  a candidate planned in two waves is sent to the model again, as `ScoreRepair.RepeatRun` does. `ScoreRepair.ResendExactly`
  gives the exact condition on the plan and the journal; plans made from distinct rows are not affected.
- A crash between saving a result and rewriting the checkpoint leaves the evaluator's slot uncharged
  (scripts/run_jd_repair_eval.py:306-312). Recorded time keeps within the budget; time actually spent keeps within it in
  every run iff a full slot for every selected key fits (`JdRepairEval.SpentWithinExactly`).
- The deadline window builds its list of unfinished rows by unpacking the keys of the in-flight dictionary, which
  are futures (scripts/repair_feishu_catalog_batch.py:861). With anything in flight when the loop stops this raises
  an error, and those rows are neither results nor recorded as not run. `DeadlineWindow.ConservesExactly` gives the exact
  condition. The report then keeps the coverage claim of the session before, beside the new number of rows
  (scripts/repair_feishu_catalog_batch.py:1186-1190); `DeadlineWindow.StaleRun` is a run that ends with a false claim,
  and `DeadlineWindow.ClaimSoundExactly` says when none can.

## Model

| member | source | states |
|---|---|---|
| `SqlSplit.SplitSql` | scripts/apply_migrations.py:119-223 | The index-and-buffer loop ends and returns exactly the statements of the recursive lexer, for every input string; they are stretches of the script, placed as `SqlSplit.StatementsInPlace` says |
| `SqlSplit.StatementsInPlace` | scripts/apply_migrations.py:119-223 | The statements are trimmed stretches of the script in order, with a cut between one and the next and none inside; outside them are only cut semicolons and white space |
| `SqlSplit.SpaceListed` | scripts/apply_migrations.py:210-220 | What is trimmed off is white space by the list of its characters, and nothing else |
| `SqlSplit.Inside` | scripts/apply_migrations.py:132-179 | Inside comments and quotes the loop takes the turns of the lexer, character for character |
| `SqlSplit.SegmentsLossless` | scripts/apply_migrations.py:119-223 | The raw segments joined by semicolons are the input: no character is lost or added |
| `SqlSplit.CutsAreNormalSemicolons` | scripts/apply_migrations.py:128-217 | A position is a cut iff it holds a semicolon and the lexer, run over the text before it, is in the normal state |
| `SqlSplit.TagExactly` | scripts/apply_migrations.py:201-208 | A dollar tag is two dollar signs with nothing or a name between them; a number, as in `$1`, opens none |
| `SqlSplit.PlainTextStays` | scripts/apply_migrations.py:180-217 | Text in which no quote, comment mark or dollar tag begins leaves the lexer in the normal state, so that all its semicolons cut |
| `SqlSplit.Compose` | scripts/apply_migrations.py:119-223 | Lexing a text in two parts is lexing the whole, whenever the first part ends at a place no token straddles |
| `SqlSplit.SplitGivesStatements` | scripts/apply_migrations.py:119-223 | Every output is a non-empty stripped text that the lexer never cuts inside |
| `SqlSplit.StatementsSplitBack` | scripts/apply_migrations.py:119-223 | Any list of such statements, joined by newline, semicolon, newline, splits back to the same list |
| `SqlSplit.SplitRoundTrip` | scripts/apply_migrations.py:119-223 | Rejoining the statements of any input and splitting again gives exactly those statements |
| `SqlSplit.LineCommentPassedOver` | scripts/apply_migrations.py:132-185 | A line comment, semicolons in it included, is passed over without a cut |
| `SqlSplit.BlockCommentPassedOver` | scripts/apply_migrations.py:139-190 | So is a block comment up to its first end mark |
| `SqlSplit.LiteralPassedOver` | scripts/apply_migrations.py:149-200 | So is a quoted literal or identifier with any text in it once its quotes are doubled |
| `SqlSplit.DollarQuotePassedOver` | scripts/apply_migrations.py:171-208 | So is a dollar-quoted body that does not hold its own tag |
| `MigrationLedger.Database.Inspect` | scripts/apply_migrations.py:258-290 | It fails iff some ledger row agrees with no migration of the package in version, name and text; else the plan lists exactly the unrecorded and the recorded migrations in version order; nothing changes |
| `MigrationLedger.DriftedExactly` | scripts/apply_migrations.py:271-281 | A ledger has drifted iff it has a row whose version the package lacks or has under another name or text |
| `MigrationLedger.SelectExactly` | scripts/apply_migrations.py:282-285 | The planned and the applied migrations are those of the package whose version no ledger row has, or some has, in package order |
| `MigrationLedger.Database.ApplyOne` | scripts/apply_migrations.py:320-356 | One migration is atomic: either its statements and its ledger row are both committed or nothing is; a recorded migration is skipped or refused |
| `MigrationLedger.Database.ApplyMigrations` | scripts/apply_migrations.py:359-384 | If some ledger row agrees with no migration of the package, nothing changes; otherwise exactly the pending migrations before the first fault are committed, and an undisturbed run without faults returns what the check announced; the run is one of the applier machine |
| `MigrationLedger.TrailIsRun` | scripts/apply_migrations.py:359-384 | Such a run of the runner is a run of the machine below, so that what holds of all interleavings holds of it |
| `MigrationLedger.CommitConsistent` | scripts/apply_migrations.py:320-356 | A commit keeps the schema equal to the effects of the ledger |
| `MigrationLedger.SchemaIsLedger` | scripts/apply_migrations.py:226-255 | In every interleaving of appliers, faults, crashes and reruns the committed schema is exactly the effects of the ledger's migrations, each once and none in part, with no duplicate version |
| `MigrationLedger.StepInOrder` | scripts/apply_migrations.py:359-384 | No step of any applier of the package takes the ledger out of version order |
| `MigrationLedger.LedgerIsPrefix` | scripts/apply_migrations.py:359-384 | From an empty database with one package, the ledger is at all times a prefix of the package, and all of it once one applier is done, so that a rerun applies nothing |
| `ScoreRepair.RunIsSafe` | scripts/repair_legacy_matching_scores.py:144-186 | In every run with other writers and crashes, each replacement found the planned snapshot and came after the journal held that original and then the proposal, and each call came after its original |
| `ScoreRepair.WriteExactly` | scripts/repair_legacy_matching_scores.py:215-222 | In every run each replacement leaves the record's score in job and analysis, the record's analysis, one time in both, and everything else of that row and of the others as it was |
| `ScoreRepair.Coordinator.Open` | scripts/repair_legacy_matching_scores.py:161-179 | Opening the journal rebuilds the indexes of originals and of last proposals from its lines |
| `ScoreRepair.Coordinator.ApplyIfUnchanged` | scripts/repair_legacy_matching_scores.py:204-223 | A row is replaced iff the record is complete with a score and the stored rows equal the planned snapshot: then job and analysis hold the record's score, the analysis its content, both the time, and nothing else changes; a record for another job is refused |
| `ScoreRepair.Coordinator.BackUp` | scripts/repair_legacy_matching_scores.py:238-253 | After it the journal holds the exact original of every candidate of the wave and no new proposal |
| `ScoreRepair.Coordinator.Submit` | scripts/repair_legacy_matching_scores.py:254-257 | Exactly the candidates without a proposal at the start of the session are sent, each once and in order, after the whole wave is backed up |
| `ScoreRepair.Coordinator.Settle` | scripts/repair_legacy_matching_scores.py:286-289 | Whatever the others did before the lock, the row is replaced, by score and content of the record, iff it is still the planned one, and the outcome is journaled |
| `ScoreRepair.Coordinator.Process` | scripts/repair_legacy_matching_scores.py:258-291 | What one candidate does to rows, journal lines and every counter, in each branch: an answer without a complete score is journaled as failed and counts a stop iff it is one, any other is journaled and applied; it ends the session iff its result names another job |
| `ScoreRepair.Coordinator.Repair` | scripts/repair_legacy_matching_scores.py:226-294 | The session ends with the first wave that has a provider stop, with the plan, or at the first mismatched result of a started wave; in each case it leaves exactly the rows, counters, proposals and calls this gives, counts one model job for each call, and resends iff its script does |
| `ScoreRepair.Coordinator.Campaign` | scripts/repair_legacy_matching_scores.py:226-294 | In any sequence of sessions and crashes each session is performed as its script says, from what the one before left; every moment is safe, and with plans that repeat no candidate no key is sent again once its proposal is journaled |
| `ScoreRepair.EndedExactly` | scripts/repair_legacy_matching_scores.py:234-293 | The session ends for a mismatch iff a started wave has one, and the waves started are exactly those that no earlier stop or mismatch precedes |
| `ScoreRepair.ThroughAccounted` | scripts/repair_legacy_matching_scores.py:258-291 | Over any number of candidates the counters account for each once, by kind of result and by outcome, and count a stop iff an answer was one |
| `ScoreRepair.ModelJobsCounted` | scripts/repair_legacy_matching_scores.py:259-263 | The model jobs counted are the candidates whose proposal the journal did not hold |
| `ScoreRepair.WavesAreEqual` | scripts/repair_legacy_matching_scores.py:234-240 | Waves begin at the multiples of the number of workers |
| `ScoreRepair.UndisturbedApplies` | scripts/repair_legacy_matching_scores.py:204-223 | With the planned rows in place and nobody else writing, every candidate with a result ends with that result's score and content at a time of the clock, none is skipped and the others keep their rows |
| `ScoreRepair.FreshExactly` | scripts/repair_legacy_matching_scores.py:254-285 | The calls of a session include one whose key is already proposed iff its script resends |
| `ScoreRepair.RepeatIsResent` | scripts/repair_legacy_matching_scores.py:254-285 | A candidate planned twice with a usable answer for its own job is resent |
| `ScoreRepair.RepeatRun` | scripts/repair_legacy_matching_scores.py:226-294 | Such a session on a fresh journal does send a key whose proposal the journal holds, whatever the rows and the other writers |
| `ScoreRepair.ResendExactly` | scripts/repair_legacy_matching_scores.py:254-285 | No session over a plan resends, whatever the model answers, iff no key without a journaled proposal is planned again in a later wave that a journaled mismatch does not cut off |
| `ScoreRepair.PlannedRowsAreDistinct` | scripts/repair_legacy_matching_scores.py:100-139 | Plans built from distinct job rows meet that condition |
| `HydrationRows.Deduplicate` | scripts/hydrate_offerbiu_full_crawl.py:430-449 | One record per key in first-seen order: the earliest of those of highest priority, with its sources in input order |
| `HydrationRows.NextRepresents` | scripts/hydrate_offerbiu_full_crawl.py:443-448 | One more duplicate keeps the representative the earliest best of its group |
| `HydrationRows.DuplicatesSumToInput` | scripts/hydrate_offerbiu_full_crawl.py:884-898 | The duplicate counts sum to the number of raw records |
| `HydrationRows.PriorityExactly` | scripts/hydrate_offerbiu_full_crawl.py:422-427 | A confirmed 2027 cohort outranks any other, and between equals a complete capture an incomplete one |
| `HydrationRows.AssessExactly` | packages/recruitment_core/jd_capture.py:20-39 | A capture is complete iff its evidence is complete, verified, terminated without controls, has source and method, and is about the very detail that is stored |
| `HydrationRows.PreparedExactly` | scripts/hydrate_offerbiu_full_crawl.py:630-662 | Exactly the records of a confirmed 2027 cohort without a complete capture need a request; any other keeps its job, and its row says why |
| `HydrationRows.HydratedExactly` | scripts/hydrate_offerbiu_full_crawl.py:675-745 | A record is hydrated iff its response says complete and carries a complete capture; any other response fails it; a request was made unless the response denies it |
| `HydrationRows.ReuseRefinesFetch` | scripts/hydrate_offerbiu_full_crawl.py:550-583 | For a waiter that the shared response proves, reuse gives the same outcome, detail and evidence as fetching that response for it |
| `HydrationRows.ReusedLikeFetched` | scripts/hydrate_offerbiu_full_crawl.py:748-764 | Whatever response the representative received, if it may be shared for both, the row the waiter is given is the one that fetching it would have given |
| `HydrationRows.LegitRowsAreSound` | scripts/hydrate_offerbiu_full_crawl.py:586-745 | Every row, prepared, fetched or reused, is terminal; a hydrated one is of a confirmed 2027 cohort and has a complete status and a complete assessment against its own job; any other leaves the job as crawled; a confirmed job already complete is kept without a request |
| `HydrationScheduler.ResultCounts` | scripts/hydrate_offerbiu_full_crawl.py:798-808 | The recount gives each outcome its number of records, and no entry for an absent one, and counts the requests made |
| `HydrationScheduler.TallyAfterStore` | scripts/hydrate_offerbiu_full_crawl.py:961-973 | Storing a row moves exactly one record from its previous outcome to the new one |
| `HydrationScheduler.TalliesCoverRecords` | scripts/hydrate_offerbiu_full_crawl.py:811-823 | The outcome counts sum to the number of records, and none is pending iff every record has a terminal row |
| `HydrationScheduler.MoveCounters` | scripts/hydrate_offerbiu_full_crawl.py:961-973 | The incremental update of the counters equals a full recount after the store, dropped zero entries included |
| `HydrationScheduler.LoadSaved` | scripts/hydrate_offerbiu_full_crawl.py:767-780 | Resuming accepts a disk iff every saved row has its record's key and input and is terminal, and then holds exactly the records' saved rows |
| `HydrationScheduler.OwnCheckpointsLoad` | scripts/hydrate_offerbiu_full_crawl.py:909-914 | Any disk left by a run is accepted by the next |
| `HydrationScheduler.PendingRecords` | scripts/hydrate_offerbiu_full_crawl.py:942-942 | The pending list is the records without a row, in order, each once |
| `HydrationScheduler.GroupMembers` | scripts/hydrate_offerbiu_full_crawl.py:943-949 | The table of groups holds the pending members of each, in order |
| `HydrationScheduler.Grouped` | scripts/hydrate_offerbiu_full_crawl.py:943-959 | The first pending record of each group is queued, the others wait behind it and nowhere else |
| `HydrationScheduler.LeaderIsFirst` | scripts/hydrate_offerbiu_full_crawl.py:943-959 | A record of a group waits for the first pending one of it |
| `HydrationScheduler.InitiallyLocated` | scripts/hydrate_offerbiu_full_crawl.py:943-959 | After grouping, each record is in exactly one place |
| `HydrationScheduler.SubmitLocated` | scripts/hydrate_offerbiu_full_crawl.py:978-981 | Submitting keeps each record in exactly one place |
| `HydrationScheduler.LandLocated` | scripts/hydrate_offerbiu_full_crawl.py:985-1000 | Completion keeps each record in exactly one place; the waiters of a completed record become its orphans |
| `HydrationScheduler.OrphanLocated` | scripts/hydrate_offerbiu_full_crawl.py:1000-1010 | Serving or requeueing an orphan keeps each record in exactly one place |
| `HydrationScheduler.Drained` | scripts/hydrate_offerbiu_full_crawl.py:982-983 | With nothing queued or in flight no record is left waiting |
| `HydrationScheduler.TrailIsLegit` | scripts/hydrate_offerbiu_full_crawl.py:909-923 | Every disk of a run holds only rows that a run can produce |
| `HydrationScheduler.CheckpointSourced` | scripts/hydrate_offerbiu_full_crawl.py:961-973 | Storing a row that comes from a response received keeps every disk of the run explained by the responses |
| `HydrationScheduler.ReceiveSourced` | scripts/hydrate_offerbiu_full_crawl.py:985-998 | A new response disturbs no row stored so far |
| `HydrationScheduler.SourceIsFetched` | scripts/hydrate_offerbiu_full_crawl.py:1000-1010 | However its row came about, a record that needs a request has the row that fetching some response received in the run would have given it |
| `HydrationScheduler.ShareableExactly` | scripts/hydrate_offerbiu_full_crawl.py:550-583 | A response is shared for a record iff it is a complete official capture of the job's own URL, names exactly its native id and title, and no company |
| `HydrationScheduler.ReusedIsProved` | scripts/hydrate_offerbiu_full_crawl.py:1000-1010 | A reused row, of a record that made no request, is that of a response which another record of its group received and which captures both jobs in this way |
| `HydrationScheduler.SparedIsNotNeeded` | scripts/hydrate_offerbiu_full_crawl.py:1000-1010 | A record for which the first response of its group is such a capture of both jobs needs no request |
| `HydrationScheduler.RequestSaid` | scripts/hydrate_offerbiu_full_crawl.py:755-764 | A row says that a request was made iff its record made one and the response does not deny it |
| `HydrationScheduler.InitiallyFrugal` | scripts/hydrate_offerbiu_full_crawl.py:943-959 | After grouping only records that need a request are queued, and the others wait for the first of their group |
| `HydrationScheduler.QueueFrugal` | scripts/hydrate_offerbiu_full_crawl.py:1007-1010 | A waiter goes to the queue only if the response of its group's first record does not serve both |
| `HydrationScheduler.WrittenSources` | scripts/hydrate_offerbiu_full_crawl.py:909-923 | What a crash leaves on disk is explained by the responses whose own rows are there |
| `HydrationScheduler.Scheduler.Resume` | scripts/hydrate_offerbiu_full_crawl.py:916-959 | A run resumed from any own disk starts valid, with nothing fetched, and has queued the first pending record of each group with the others waiting behind it |
| `HydrationScheduler.Scheduler.PrepareAll` | scripts/hydrate_offerbiu_full_crawl.py:916-923 | Exactly the records that need no request get and keep a row before anything is queued |
| `HydrationScheduler.Scheduler.StoreResult` | scripts/hydrate_offerbiu_full_crawl.py:961-973 | Memory, disk and counters move together and one record less is pending |
| `HydrationScheduler.Scheduler.Fill` | scripts/hydrate_offerbiu_full_crawl.py:978-981 | The pool takes the front of the queue, in order, and is full or the queue empty; no more than the workers are in flight |
| `HydrationScheduler.Scheduler.Land` | scripts/hydrate_offerbiu_full_crawl.py:985-1000 | For any response the completed record gets the row of that response |
| `HydrationScheduler.Scheduler.Serve` | scripts/hydrate_offerbiu_full_crawl.py:1002-1010 | The first waiter is given the reused row iff the response may be shared for it, and otherwise goes to the end of the queue |
| `HydrationScheduler.Scheduler.Release` | scripts/hydrate_offerbiu_full_crawl.py:1000-1010 | A waiter gets the reused row iff the response may be shared for its representative and for itself, and otherwise is queued |
| `HydrationScheduler.Scheduler.Complete` | scripts/hydrate_offerbiu_full_crawl.py:985-1010 | A completion gives the record the row of its response, and each waiter the row that fetching that response would have given iff the response captures both jobs, and otherwise a place in the queue |
| `HydrationScheduler.Scheduler.StageComplete` | scripts/hydrate_offerbiu_full_crawl.py:822-823 | The stage is complete by the counters iff every record has a row |
| `HydrationScheduler.Scheduler.Run` | scripts/hydrate_offerbiu_full_crawl.py:976-1036 | For any completion order and responses the loop ends with one row per record, the same in memory, on disk and in the job lines; each row not found on disk is the prepared one or that of a response to a call of this run, as if fetched for the record itself; a reused one is of a response that captures both jobs and names no company, and whom such a response serves is not fetched; every call was answered, needed, made once and for a record without a saved row, and counted as made |
| `HydrationScheduler.Scheduler.Drain` | scripts/hydrate_offerbiu_full_crawl.py:976-1010 | The main loop ends, with nothing queued or in flight, and forgets no response |
| `HydrationScheduler.RunFrom` | scripts/hydrate_offerbiu_full_crawl.py:864-1036 | A run from any own disk, to its end or to a crash at any checkpoint, keeps the rows found and adds only rows of its own responses |
| `HydrationScheduler.Campaign` | scripts/hydrate_offerbiu_full_crawl.py:864-1036 | Any number of crashes and resumes, then one run to the end, gives every record its row; rows that survived a crash are kept, and each row comes from a response received by the run that stored it |
| `JdRepairEval.StepCalledOnce` | scripts/run_jd_repair_eval.py:324-350 | No action calls the fetcher for a key that was called, saved or interrupted before |
| `JdRepairEval.StepAccounted` | scripts/run_jd_repair_eval.py:306-350 | Every action keeps recorded time within the budget plus what the clock moved beside the calls, and each interrupted slot is charged once |
| `JdRepairEval.RunIsSafe` | scripts/run_jd_repair_eval.py:290-353 | Over all sessions and crashes each selected key is called at most once, each interrupted slot is charged exactly once and the accounts hold |
| `JdRepairEval.BudgetHolds` | scripts/run_jd_repair_eval.py:318-350 | If calls stay within their slots and the clock moves only inside calls, recorded time never exceeds the budget, and time spent exceeds it by no more than crashes lost |
| `JdRepairEval.SpentCanExceedBudget` | scripts/run_jd_repair_eval.py:306-312 | A run in which a crash between the result file and the checkpoint lets the time spent exceed the budget |
| `JdRepairEval.RunSpent` | scripts/run_jd_repair_eval.py:333-345 | Without slack, in every run the time spent is at most one slot for each call that came back |
| `JdRepairEval.SpentWithinExactly` | scripts/run_jd_repair_eval.py:290-353 | With slots of at most a timeout, the time spent keeps within the budget in every run without slack iff a full slot for every selected key does |
| `JdRepairEval.Evaluator.Slotted` | scripts/run_jd_repair_eval.py:329-350 | One call in its slot, checkpointed before and after, and what it adds to the record |
| `JdRepairEval.Evaluator.OneTurn` | scripts/run_jd_repair_eval.py:322-350 | The turn of one key: stopped without a whole slot or without worker time, else one call, with the clock as read |
| `JdRepairEval.Evaluator.Session` | scripts/run_jd_repair_eval.py:290-353 | A session ends in one of the four ways and leaves exactly what its turns give: calls for the keys not yet dealt with, in order, each with a whole slot left before it; as time spent the sum of the call times; as time recorded that, the charge of an interrupted slot and all other readings of the clock |
| `JdRepairEval.SessionMeasured` | scripts/run_jd_repair_eval.py:306-353 | What any session leaves, in the readings of the clock: calls, charge, time spent and time recorded |
| `JdRepairEval.SteadySession` | scripts/run_jd_repair_eval.py:313-353 | With calls of one length and no idle time it records the charge and that length for each new call |
| `JdRepairEval.Evaluator.Crash` | scripts/run_jd_repair_eval.py:298-317 | A crash takes the evaluator back to any state of its run, and the history up to it stays a run |
| `JdRepairEval.QuietSession` | scripts/run_jd_repair_eval.py:318-350 | Without idle time and with calls within their slots a session adds no slack, records exactly the time of its calls, and stops for its budget only when that leaves no whole slot |
| `RoundProbe.StepLimited` | scripts/probe_oc_regression_round4.py:282-325 | Every action keeps each lead at two attempts, the second only of an interrupted lead, and calls within attempts |
| `RoundProbe.ThreeAfter` | scripts/probe_oc_regression_round4.py:389-394 | The consecutive counter reaches three exactly when the last three recorded outcomes are failures |
| `RoundProbe.StepGuarded` | scripts/probe_oc_regression_round4.py:303-394 | The breaker is set iff three recorded outcomes in a row were failures, and no call follows |
| `RoundProbe.RunIsSafe` | scripts/probe_oc_regression_round4.py:278-401 | Over all sessions and crashes a lead is called at most twice, twice only after an interruption, and never after three environment failures in a row |
| `RoundProbe.Probe.Attempt` | scripts/probe_oc_regression_round4.py:321-400 | One attempt is counted before its call and its outcome recorded after it |
| `RoundProbe.Probe.Session` | scripts/probe_oc_regression_round4.py:278-401 | A session leaves exactly the outcomes, attempts and calls of its turns: one call and one outcome for each lead dealt with in time, in order, a failure exactly when that turn's was |
| `RoundProbe.TurnsPlayed` | scripts/probe_oc_regression_round4.py:299-393 | Each recorded outcome is that of the turn of the lead called, in order |
| `RoundProbe.Probe.Crash` | scripts/probe_oc_regression_round4.py:262-294 | A crash takes the probe back to any state of its run, and the history up to it stays a run |
| `RoundProbe.TurnsInOrder` | scripts/probe_oc_regression_round4.py:299-401 | Leads are dealt with in turn until the breaker is set or a turn comes too late, only leads with both attempts used are skipped, and nothing changes once the breaker is set |
| `BatchPacking.Screen` | scripts/prepare_scoring_batches.py:36-58 | Screening gives the eligible and the excluded jobs in order, or fails at the first job whose id was seen before or whose fingerprint is wrong, and says which |
| `BatchPacking.EveryJobOnce` | scripts/prepare_scoring_batches.py:36-58 | Every frozen job is in exactly one of the two lists |
| `BatchPacking.ScreenedExactly` | scripts/prepare_scoring_batches.py:45-58 | A job is packed iff it is assigned nowhere else and cannot be reused; else it is excluded for the first of these reasons that holds |
| `BatchPacking.ScreenedInOrder` | scripts/prepare_scoring_batches.py:39-58 | Both lists keep the order of the jobs |
| `BatchPacking.Pack` | scripts/prepare_scoring_batches.py:59-70 | The batches join to the eligible jobs in order, each within the limits or a singleton, and each closed only because the next job had no room |
| `BatchPacking.FirstNoLonger` | scripts/prepare_scoring_batches.py:62-68 | No division of the same jobs reaches further with its first batch |
| `BatchPacking.GreedyIsShortest` | scripts/prepare_scoring_batches.py:59-70 | No other contiguous division within the limits uses fewer batches |
| `BatchPacking.Prepare` | scripts/prepare_scoring_batches.py:28-76 | The whole preparation: which error in which order, else both lists and an optimal packing |
| `CompanySelection.LeastGroup` | scripts/eval_offerbiu_link_quality.py:381-408 | The chosen bucket is open and least by fill, then by companies left, then by order |
| `CompanySelection.BestCompany` | scripts/eval_offerbiu_link_quality.py:362-373 | The chosen company is least by rank among those available |
| `CompanySelection.GroupRankExactly` | scripts/eval_offerbiu_link_quality.py:400-408 | Between two open groups the emptier comes first, then the one with fewer companies left, then the lower number |
| `CompanySelection.CompanyRankExactly` | scripts/eval_offerbiu_link_quality.py:362-373 | Between two companies the one with more new tags comes first, then one of a single group, then the one with more records, then the lower key |
| `CompanySelection.SelectCompanies` | scripts/eval_offerbiu_link_quality.py:376-417 | The loop is a greedy run that ends only when nothing is open, and its buckets are that run's, sorted by key |
| `CompanySelection.ByKeySorts` | scripts/eval_offerbiu_link_quality.py:415-416 | Sorting a bucket keeps its companies and puts them in key order |
| `CompanySelection.BucketsShare` | scripts/eval_offerbiu_link_quality.py:410-412 | The bucket sizes sum to the number of picks, which use as many different companies, and none exceeds its capacity |
| `CompanySelection.SelectionIsFeasible` | scripts/eval_offerbiu_link_quality.py:381-413 | Buckets are disjoint, within capacity and hold only eligible companies |
| `CompanySelection.SelectionIsMaximal` | scripts/eval_offerbiu_link_quality.py:397-398 | On exit no unused eligible company fits a bucket that has room |
| `CompanySelection.AtLeastHalf` | scripts/eval_offerbiu_link_quality.py:376-417 | The selection holds at least half as many companies as any feasible assignment |
| `CompanySelection.NeverAheadOfAnOpenGroup` | scripts/eval_offerbiu_link_quality.py:400-408 | A pick never goes to a bucket fuller than one that was open then |
| `CompanySelection.TrailingBucketWasExhausted` | scripts/eval_offerbiu_link_quality.py:400-413 | A bucket that trails another by two or more had no unused eligible company left |
| `DeadlineWindow.Report.SubmitAvailable` | scripts/repair_feishu_catalog_batch.py:806-824 | Rows are submitted in order while there is a row, a free slot and time |
| `DeadlineWindow.Report.LandDone` | scripts/repair_feishu_catalog_batch.py:834-859 | Completed rows become results and leave the list of rows in flight, in any order of completion; earlier results stay |
| `DeadlineWindow.Report.RunWindow` | scripts/repair_feishu_catalog_batch.py:787-869 | The window ends as the window function says, for any clock and completions, and adds exactly its outcome to the report |
| `DeadlineWindow.SubmitExactly` | scripts/repair_feishu_catalog_batch.py:805-820 | The first pending rows go to the pool, in order, each while a slot is free and before the deadline, until there is no row, no slot or no time left |
| `DeadlineWindow.WindowKeeps` | scripts/repair_feishu_catalog_batch.py:787-869 | At its end each row is pending, in flight or done as often as it was given, no more than the limit are in flight, none was submitted at or after the deadline, and the report lists only rows in flight |
| `DeadlineWindow.ConservesExactly` | scripts/repair_feishu_catalog_batch.py:861-868 | Each row ends exactly once in results or not run iff no row is in flight when the loop stops, which is when the window returns normally |
| `DeadlineWindow.ConservedAlwaysExactly` | scripts/repair_feishu_catalog_batch.py:826-868 | Given rows are conserved for every clock and every completion iff there are none |
| `DeadlineWindow.DeadlineLosesRow` | scripts/repair_feishu_catalog_batch.py:861-868 | A row in flight at the deadline ends in neither, and the window fails |
| `DeadlineWindow.InTimeFinishesAll` | scripts/repair_feishu_catalog_batch.py:826-859 | With time left and a completion in every wait, a window finishes every row |
| `DeadlineWindow.FailsOnlyLate` | scripts/repair_feishu_catalog_batch.py:826-861 | A window fails only if the deadline came or a wait timed out |
| `DeadlineWindow.LateWindowFails` | scripts/repair_feishu_catalog_batch.py:826-868 | Whatever its rows, a window whose time is up after its first submission fails with nothing done |
| `DeadlineWindow.Report.RunCandidates` | scripts/repair_feishu_catalog_batch.py:1227-1285 | The smoke window comes first and no other row is run if its check fails; the batch fails iff one of the windows it runs ends with a row in flight, and otherwise every candidate is finished or not run |
| `DeadlineWindow.Report.Cover` | scripts/repair_feishu_catalog_batch.py:740-784 | Full coverage is claimed iff the scope is loaded, every loaded row has a result, nothing was left and nothing is in flight |
| `DeadlineWindow.Report.RunBatch` | scripts/repair_feishu_catalog_batch.py:1176-1316 | Rows with a result are not run again; results, failure, rows left, the counts of the coverage and the claim of full coverage are given exactly |
| `DeadlineWindow.EveryRowHasResult` | scripts/repair_feishu_catalog_batch.py:1198-1210 | With no candidate left every loaded row has an earlier, a skipped or a finished result |
| `DeadlineWindow.SmokeExactly` | scripts/repair_feishu_catalog_batch.py:1228-1258 | The smoke check is passed iff each of the first candidates has a result that agrees |
| `DeadlineWindow.NotRunCounted` | scripts/repair_feishu_catalog_batch.py:684-685 | Rows not run count one each, and a line of several rows that many |
| `DeadlineWindow.BatchInTime` | scripts/repair_feishu_catalog_batch.py:1227-1285 | A batch in time does not fail and leaves nothing but what a failed smoke check keeps back |
| `DeadlineWindow.ClaimSoundExactly` | scripts/repair_feishu_catalog_batch.py:1186-1316 | Whatever the clock and the completions, a claim of full coverage is true iff the resumed report did not already make it beside a candidate without a result |
| `DeadlineWindow.StaleRun` | scripts/repair_feishu_catalog_batch.py:1186-1316 | Two sessions after which the report claims full coverage and a loaded row has no result |
| `EvaluationIndex.BindingsOwned` | scripts/oc_catalog_evaluation.py:143-155 | What a row binds, directly or through aliases, is owned if the aliases are |
| `EvaluationIndex.BuildOwned` | scripts/oc_catalog_evaluation.py:110-169 | Every binding made by the index pairs a URL with a company that owns it in the leads, inherited ones included |
| `EvaluationIndex.KeyedExactly` | scripts/oc_catalog_evaluation.py:99-102 | The keyed lead of a row is the last one with its key |
| `EvaluationIndex.OwnersExactly` | scripts/oc_catalog_evaluation.py:103-108 | The companies that own a URL are those of the leads that list it |
| `EvaluationIndex.PrepareExactly` | scripts/oc_catalog_evaluation.py:117-130 | The keyed lead gives a row its companies iff the row has none and does not name another, and its primary URL as the original iff the row has none and is not at one of the lead's URLs; nothing else changes |
| `EvaluationIndex.ScopeExactly` | scripts/oc_catalog_evaluation.py:132-136 | A row names the companies of its projects or, without any, its own; no empty name counts |
| `EvaluationIndex.AnchorsExactly` | scripts/oc_catalog_evaluation.py:137-142 | A row is anchored at its original URL, or else its own, and so is each of its runs |
| `EvaluationIndex.UrlsExactly` | scripts/oc_catalog_evaluation.py:49-69 | A row has the URLs of its own fields and of its runs, normalised and not empty |
| `EvaluationIndex.RedirectedExactly` | scripts/oc_catalog_evaluation.py:156-159 | A row without an original records the URL it is bound to, if that is one and not its own |
| `EvaluationIndex.ExtendExactly` | scripts/oc_catalog_evaluation.py:160-162 | Each URL of a bound row inherits its bindings beside those it had, and no other URL does |
| `EvaluationIndex.FiledExactly` | scripts/oc_catalog_evaluation.py:163-169 | A row is filed last under its lead key with its own companies, and last under each URL it is bound to with the companies bound there |
| `EvaluationIndex.DirectBindingsExactly` | scripts/oc_catalog_evaluation.py:143-155 | A row with an original binds exactly: its anchors with their owners among the companies it names, or, naming none, its anchors that have one owner only |
| `EvaluationIndex.BindingsExactly` | scripts/oc_catalog_evaluation.py:143-155 | With inheritance too, the bindings are exactly known: of each anchor the only candidate, and the owners that the row names |
| `EvaluationIndex.BindingsInScope` | scripts/oc_catalog_evaluation.py:147-155 | A row that names companies binds no other |
| `EvaluationIndex.AmbiguousBindsNothing` | scripts/oc_catalog_evaluation.py:150-155 | An anchor with several candidates gives nothing to a row that names no company |
| `EvaluationIndex.OrderedAscends` | scripts/oc_catalog_evaluation.py:110-110 | The rows are processed in strict order of recency |
| `EvaluationIndex.OrderedRows` | scripts/oc_catalog_evaluation.py:110-110 | Ordering keeps every row as often as it was given |
| `EvaluationIndex.BuildAscends` | scripts/oc_catalog_evaluation.py:110-169 | Under each URL the rows are filed in order of recency |
| `EvaluationIndex.AnswerIsOwned` | scripts/oc_catalog_evaluation.py:171-188 | An answer at a real URL is bound only to owners of that URL and names the lead |
| `EvaluationIndex.AcceptsExactly` | scripts/oc_catalog_evaluation.py:171-187 | A row answers a lead iff it is bound to one of its companies or, bound to none, names no company or one of them |
| `EvaluationIndex.InputOrderDoesNotMatter` | scripts/oc_catalog_evaluation.py:38-46 | When completion times differ, the answer at a real URL is the same row, bound to the same companies, for every order of the input |
| `EvaluationIndex.EvaluationIndex.constructor` | scripts/oc_catalog_evaluation.py:95-169 | The loop over the ordered rows builds the index of the specification |
| `EvaluationIndex.EvaluationIndex.Bind` | scripts/oc_catalog_evaluation.py:143-155 | The loop over the anchors collects the bindings of the row |
| `EvaluationIndex.EvaluationIndex.FileBound` | scripts/oc_catalog_evaluation.py:167-169 | The row is filed once under each URL it is bound to, and other URLs keep their rows |
| `EvaluationIndex.EvaluationIndex.Add` | scripts/oc_catalog_evaluation.py:111-169 | One row's bindings, aliases and entries |
| `EvaluationIndex.EvaluationIndex.ForSource` | scripts/oc_catalog_evaluation.py:171-188 | No acceptable row means no answer; otherwise the answer is acceptable and no acceptable one has a later completion time, or the same one and a later place; at a real URL it is the last one filed |
| `IdentityMerge.SortedAscends` | scripts/migrate_job_identity.py:75-82 | A group is ordered by application, age and id, without losing or repeating a job |
| `IdentityMerge.LessExactly` | scripts/migrate_job_identity.py:75-82 | Ids are compared as texts: at the first difference, or the shorter first |
| `IdentityMerge.MergeAllEffect` | scripts/migrate_job_identity.py:87-104 | Merging duplicates into a survivor deletes exactly them, repoints exactly their applications and leaves their first analysis to a survivor without one |
| `IdentityMerge.MergeGroupsEffect` | scripts/migrate_job_identity.py:73-120 | The effect of merging any groups that share no job, on all three tables |
| `IdentityMerge.OthersLeftAlone` | scripts/migrate_job_identity.py:73-120 | Whatever was listed and whatever has changed since, every application is kept, and no job, analysis or reference outside the listing is touched |
| `IdentityMerge.GroupsApart` | scripts/migrate_job_identity.py:48-59 | The groups of a listing share no job and are not empty |
| `IdentityMerge.OneJobPerIdentity` | scripts/migrate_job_identity.py:73-120 | The jobs left are the first of each identity, with that identity recorded, and no two share a business key |
| `IdentityMerge.SurvivorExactly` | scripts/migrate_job_identity.py:75-120 | A job is left iff it comes before every other one of its identity, referenced first, then older, then by id; it then holds its native id, its identity and its company's profile, and is otherwise as it was |
| `IdentityMerge.ApplicationsKept` | scripts/migrate_job_identity.py:91-96 | Every application is kept; one that referred to a job refers to the survivor of its identity, any other is unchanged |
| `IdentityMerge.HeirIsFirst` | scripts/migrate_job_identity.py:97-103 | The survivor's analysis is that of the first member that has one |
| `IdentityMerge.AnalysisInherited` | scripts/migrate_job_identity.py:97-103 | A survivor has an analysis iff a job of its identity had one: its own, or that of the first such job |
| `IdentityMerge.TotalLinksCount` | scripts/migrate_job_identity.py:91-96 | The links counted over all groups are the applications whose reference moves |
| `IdentityMerge.DuplicatesCounted` | scripts/migrate_job_identity.py:61-67 | The duplicates to merge are the jobs beyond one per identity |
| `IdentityMerge.SeveralExactly` | scripts/migrate_job_identity.py:61-66 | The duplicate groups reported are those with more than one job |
| `IdentityMerge.ReferencedExactly` | scripts/migrate_job_identity.py:44-46 | A job is referenced iff some application refers to it; an application without a job refers to none |
| `IdentityMerge.Catalog.GroupJobs` | scripts/migrate_job_identity.py:48-59 | The table filled job by job holds each key's jobs in order |
| `IdentityMerge.Catalog.MergeDuplicates` | scripts/migrate_job_identity.py:87-104 | The loop over the duplicates, and the links it counts |
| `IdentityMerge.Catalog.Migrate` | scripts/migrate_job_identity.py:39-138 | A job without an identity or a dry run changes nothing; otherwise the tables are the merged ones, and the report gives groups, duplicates and, undisturbed, exactly the applications that changed |

## Left out

- HydrationScheduler.Scheduler.Run: summaries written along the way and their timing are not modelled; the final counters are.
- HydrationScheduler.Scheduler.Resume: the manifest, its input fingerprint and the options check are not modelled.
- HydrationScheduler.LoadSaved: a saved file that is not readable or not an object counts as one that does not fit its record.
- HydrationRows.ReuseRefinesFetch: the key that groups records for sharing is a parameter; the two checks of the shared response are modelled.
- The detail hydrator that wraps the fetcher and reuses pages inside a run: a response is arbitrary here.
- MigrationLedger.Database.ApplyOne: the migration's text stands for its checksum, and is the text executed; line-ending translation on reading and a file changed between hashing and reading are not modelled.
- Discovery of migration files: the package comes as a list in strictly increasing versions, which is what discovery guarantees.
- ScoreRepair.Coordinator.Open: a torn journal line, which makes the journal refuse to open, is not modelled; lines are whole.
- Selection of the incident rows (`build_plan`): the plan is a parameter.
- JdRepairEval.Evaluator.Session: times are whole numbers; floating-point rounding is not modelled.
- JdRepairEval.BudgetHolds: bounds recorded time, and time spent only up to what crashes lost, for the reason given above.
- Verdicts, sample selection and hash checks of the evaluator and the probe.
- BatchPacking.Pack: the size of a job is a parameter, not the length of its JSON text.
- CompanySelection.BestCompany: company keys are compared as numbers that stand for their order.
- DeadlineWindow.Report.RunBatch: the database being unavailable, diagnostics, exclusions and the fields of a result are not modelled; whether a smoke result agrees with its row is a parameter.
- DeadlineWindow.Report.RunWindow: a worker's exception becomes an item like any other result.
- EvaluationIndex.InputOrderDoesNotMatter: the order in which the companies of a bound row are listed is not modelled; they are a set.
- URL and company normalisation, lead keys and the choice of a lead's primary URL are parameters.
- Selection, size limits and reading of evaluation files.
- IdentityMerge.OneJobPerIdentity: states the result of a migration undisturbed between its read and its transaction; for jobs deleted or added in between only `IdentityMerge.OthersLeftAlone` is stated.
- The company table's own fields and the unique index that the identity migration creates at its end.
- Timestamps of records and reports, report rendering and command lines.
