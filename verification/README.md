# Verified model of the Kernelyra core

This project models the parts of Kernelyra that carry its guarantees and proves properties of the model, for all
inputs, runs and interleavings:

* **Run lifecycle.** Control commands, scheduler ticks and worker threads share one store under one lock. Each block
  that runs under the lock is one step of the state machine in `Lifecycle`; what every interleaving keeps is in
  `LifecycleSafety`; `Runtime` is the object whose methods perform the steps.
* **Worker loop.** `WorkerRun` defines what one turn does under an arbitrary backend and control environment, and
  proves what holds over whole loops; `WorkerLoop` is the loop itself, proved to do exactly that; `RunLife` follows a
  run through all its sessions. With them go the score bookkeeping (`EvaluationBook`), the windowed guard
  (`ModelGuard`), the managed checkpoint store (`Checkpoints`) and the safe batch range (`Batch`).
* **Training streams.** `CyclicRows` defines the one thing every stream must deliver, the endless repetition of the
  selected rows. The portable source (`TabularStream`), its bounded producer/consumer queue (`Prefetch`) and the
  native cursor (`NativeStream`) are each proved against it.
* **Text chunks and loss masks.** `Utf8` (RFC 3629), `TextChunks` and `MaskedText`: from a document to padded batches
  that supervise every byte exactly once.
* **Split and chunk policy.** `Mixer`, `ContextPolicy` and `ExecutionPlan`: the portable policy on unbounded integers,
  the native one on wrapping 64-bit words, and the C plan and cursor.
* **Numeric kernels.** `ColumnStatistics`, `BinaryUpdate`, `NumericField`, `Numerals`, `CsvRow` and `Metrics`, over
  exact reals.

`Modular`, `Sequences` and `Options` are shared helpers. `dafny verify dfyconfig.toml` checks everything.

## What the proofs found

* A run whose first evaluation raised (a non-finite score, or a failed save) keeps `eval_count == 1` with a best score
  of 0.0 that nothing scored, because the counter is raised first and the record is saved on the way out
  (src/kernelyra/runtime.py, lines 586 and 487). A resumed run with scores below that phantom best is ended as degraded
  although nothing fell. `RunLife.StoredBestIsRealIff` says exactly which lives keep a real best,
  `RunLife.DegradedAgainstPhantomIff` exactly which scores are then ended as degraded.
* The validator of native text plans believes a planner that announces no spans, whatever the text
  (src/kernelyra/native_core.py, line 797). Then nothing is supervised; the plan is valid exactly otherwise, or for an
  empty text (`TextChunks.PassedPlanIsValidIff`).
* The written power of ten of a numeric field saturates at a thousand, so a long fraction with a huge power is read as
  a wrong number (`Numerals.WrongNumber`), and some fields in range are refused, as are those without a finite float
  (`Numerals.TooLarge`). `Numerals.ReadRightIff` gives the exact condition before rounding, `Numerals.AcceptedIff` and
  `Numerals.RefusedIff` those of the field itself.
* The best score is assigned before its checkpoint is promoted. If promoting raises, the stored best is a real score
  whose checkpoint is missing, or whose file was replaced without its metadata (`WorkerLoop.RecordEvaluation`).
* Starting the scheduler relabels training, queued, pausing and stopping runs. That keeps the lifecycle invariant
  exactly when no worker is registered (`LifecycleSafety.RestartIsSafeIffNoWorker`), which a shutdown that timed out
  does not guarantee.
* Once the consumer of a prefetching source has been handed an error, a further batch waits for ever unless the
  source was restored first (`Prefetch.StuckForEver`); some schedule gets there exactly when some row of the split does
  not encode (`Prefetch.SticksIff`). Without prefetching, an unencodable row leaves the source out of step with its
  cursor unless the batch was a multiple of the split.
* Resuming skips the cursor modulo the *declared* number of training rows. It is exact for every cursor exactly when
  that number is a multiple of the actual one (`CyclicRows.ResumeIsExactIff`); the fallback estimate of 70 percent of
  the records does not promise that.
* The native chunk policy agrees with the portable one while five times the target fits 64 bits; with the default
  limits that bound is sharp (`ContextPolicy.DefaultSizesAgreeIff`).
* The C plan's minimum exceeds its target exactly when the scaled target saturates (`ExecutionPlan.MakeLimits`).

## Model

| member | source | states |
|---|---|---|
| LifecycleSafety.InvExec | src/kernelyra/runtime.py:145-270 | the invariant (status against registered worker, flags against status, one worker per run, agreeing private copies, resource cap) survives every interleaving of commands, ticks, saves, local computation, shutdown and worker ends |
| LifecycleSafety.ReachableStates | src/kernelyra/runtime.py:171-230 | from any boot records and any interleaving: a run is training, pausing or stopping exactly when a worker is registered for it, no run has two workers, and the cpu, ram and gpu sums stay at or below 100 |
| LifecycleSafety.InvBooted | src/kernelyra/runtime.py:96-111 | whatever state the previous process died in, boot recovery establishes the invariant |
| LifecycleSafety.NothingStartsAfterBoot | src/kernelyra/runtime.py:96-111 | after a boot no worker runs and no tick starts one: every run that was waiting or active is error_recoverable and paused for the restart, every other record is as it was stored |
| LifecycleSafety.RestartIsSafeIffNoWorker | src/kernelyra/runtime.py:96-111 | relabelling at scheduler start keeps the invariant exactly when no worker is registered; with a live worker it breaks it |
| LifecycleSafety.CloseAsksTheLive | src/kernelyra/runtime.py:113-124 | a shutdown raises the pause flag of every live worker, marks exactly the training runs pausing, and leaves every other record alone |
| LifecycleSafety.LoadThenSave | src/kernelyra/runtime.py:337-340 | a worker that saves what it loaded changes nothing in the store |
| LifecycleSafety.ComputeThenSave | src/kernelyra/runtime.py:500-511 | what a worker computed reaches the store with its next save and not before, under the control plane's status, flags and transition message |
| LifecycleSafety.ObserveIff | src/kernelyra/runtime.py:535-544 | a worker that looks at its flags leaves with stop exactly when its run is stopping, with pause exactly when it is pausing, and goes on exactly when it is training |
| LifecycleSafety.SaveKeepsControlPlane | src/kernelyra/runtime.py:500-511 | a worker save changes no run's status, paused or stop_requested, keeps a transition message, otherwise writes the worker's message, reason and progress from its private copy, and touches no other run and no flag |
| LifecycleSafety.ProgressIsKept | src/kernelyra/runtime.py:145-288 | no step except a run's own worker save changes its saved progress |
| LifecycleSafety.AcceptedStopIsPending | src/kernelyra/runtime.py:181-192 | a stop of a run with a live worker is always accepted and marks it stopping under that worker |
| LifecycleSafety.AcceptedPauseIsPending | src/kernelyra/runtime.py:171-180 | a pause of a run with a live worker is accepted unless a stop is pending, in which case it is refused without effect |
| LifecycleSafety.StepKeepsHalt | src/kernelyra/runtime.py:145-288 | no step but the end of that very worker takes back an accepted pause or stop, and a stop never decays to a pause |
| LifecycleSafety.HaltIsHonoured | src/kernelyra/runtime.py:145-288 | over whole runs: after an accepted halt, either it is still pending, or the worker ended and left the run stopped (paused or stopped for a pause), or error_recoverable if it raised; never completed or queued |
| LifecycleSafety.FinalStatus | src/kernelyra/runtime.py:232-288 | the status a worker's run ends in, from what the control plane had decided and how the thread ended, with the reason that goes with it and the progress kept; worker, thread and control entry are gone and the flags agree |
| LifecycleSafety.CommandsReachTheirGoal | src/kernelyra/runtime.py:145-197 | exactly which statuses accept each command, what status results, and that a refused command has no effect |
| LifecycleSafety.CompletedIsForever | src/kernelyra/runtime.py:145-288 | a completed run stays completed under every later interleaving |
| LifecycleSafety.TickSaturates | src/kernelyra/runtime.py:215-230 | after a tick no eligible run that could have been admitted is left waiting |
| LifecycleSafety.UsageByRun | src/kernelyra/runtime.py:199-203 | what live runs use of gpu, ram and cpu is the sum of their own shares, counted run by run |
| LifecycleSafety.TickWaitsForSettling | src/kernelyra/runtime.py:205-211 | while any live run is pausing or stopping a tick changes nothing at all |
| LifecycleSafety.FirstEligibleStartsIff | src/kernelyra/runtime.py:205-230 | when every live run is training, the first eligible run is started exactly when each of gpu, ram and cpu in use plus its own demand is at most a hundred |
| LifecycleSafety.IdleTickStartsFirst | src/kernelyra/runtime.py:215-230 | with no live worker a tick starts the eligible run that comes before every other one by priority (high, normal, low) and then creation time |
| LifecycleSafety.TickStartsOnlyEligible | src/kernelyra/runtime.py:218-230 | every worker that a tick starts was queued, neither paused nor stopped, and had no worker |
| Runtime.TrainingRuntime.constructor | src/kernelyra/runtime.py:96-111 | the boot loop over stored runs produces exactly the recovered state, which is valid |
| Runtime.TrainingRuntime.Command | src/kernelyra/runtime.py:145-197 | reply and new state are those of the specified command step |
| Runtime.TrainingRuntime.UsageNow | src/kernelyra/runtime.py:199-203 | the loop's three sums are the usage over the live workers |
| Runtime.TrainingRuntime.CanStartNow | src/kernelyra/runtime.py:205-213 | true exactly when no live worker is on its way out and every resource still fits, as the tick that FirstEligibleStartsIff and TickWaitsForSettling characterise |
| Runtime.TrainingRuntime.ScheduleTick | src/kernelyra/runtime.py:218-230 | the loop over the ordered runs is the specified tick |
| Runtime.TrainingRuntime.SaveWorkerProgress | src/kernelyra/runtime.py:500-511 | the reload-merge-store under the lock is the specified save |
| Runtime.TrainingRuntime.FinishWorker | src/kernelyra/runtime.py:239-288 | the closing block of a worker thread is the specified finalize step |
| Runtime.TrainingRuntime.PauseAllForClose | src/kernelyra/runtime.py:113-124 | the loop over live workers asks each of them, and no other run, to pause |
| ModelGuard.AssessTrend | src/kernelyra/model_guard.py:10-45 | over the finite values of the last eight scores: how many trailing ones lie below best minus margin, and the advice that follows exactly |
| ModelGuard.FiniteValuesOfJoined | src/kernelyra/model_guard.py:19 | the finite values of joined score lists are joined, a finite score gives its value and any other nothing |
| ModelGuard.WindowIsTheLastEight | src/kernelyra/model_guard.py:19 | the window is the last eight scores, or all of them when there are fewer |
| ModelGuard.TrailingBelowIsMaximal | src/kernelyra/model_guard.py:24-29 | the count is the longest uninterrupted tail below the threshold |
| ModelGuard.TrailingOfTail | src/kernelyra/model_guard.py:19-29 | counting in a window is counting in the whole sequence, capped by the window |
| EvaluationBook.StreakIsTrailingCount | src/kernelyra/runtime.py:664-672 | degradation_streak equals the number of trailing scores below the current best minus the margin, although the best moved while it was counted |
| EvaluationBook.GuardsAgree | src/kernelyra/runtime.py:626-672 | at every evaluation the windowed guard counts min(streak, 5), so its advice implies the streak test and equals it for a patience of at most five |
| EvaluationBook.HitsAreTrailingCount | src/kernelyra/runtime.py:711 | target_hits is the number of trailing scores at or above the target |
| EvaluationBook.TrailingAtLeastIsMaximal | src/kernelyra/runtime.py:711 | the hits are the longest uninterrupted tail of scores at or above the target |
| EvaluationBook.PlateauIff | src/kernelyra/runtime.py:669-694 | the plateau exceeds a patience exactly when that many evaluations and one more passed, none of which improved on the best before it by more than min_improvement |
| EvaluationBook.BestDominates | src/kernelyra/runtime.py:669-688 | best_score never falls and every evaluated score is at most best_score plus min_improvement |
| EvaluationBook.BestIsAttained | src/kernelyra/runtime.py:669-688 | the best score is that of the evaluation plateau steps back, at best_step, or the one the loop opened with |
| EvaluationBook.ImprovesIff | src/kernelyra/runtime.py:669-688 | a loop records a new best exactly when the run had no evaluation before or some score beats the opening best by more than min_improvement |
| RunLife.SessionBest | src/kernelyra/runtime.py:664-694 | a session either records a new best among its own evaluations, exactly when one beats the stored best or none was ever counted, or leaves the stored best alone |
| RunLife.StoredBestIsRealIff | src/kernelyra/runtime.py:583-694 | over a run's whole life of sessions: the stored best is one of its evaluations exactly when the first evaluation did not raise after being counted, or some score beat 0.0 by more than min_improvement |
| RunLife.DegradedAgainstPhantomIff | src/kernelyra/runtime.py:664-734 | while the initial best stands, a session is ended as degraded exactly when its last scores, as many as the patience, all lie below minus the margin |
| RunLife.PhantomBest | src/kernelyra/runtime.py:583-734 | scores that never fall end a run whose first evaluation raised, exactly when they are low enough for long enough; they never end one without that accident |
| RunLife.PhantomIsReachable | src/kernelyra/runtime.py:583-625 | every fresh run can get there: a session whose first evaluation is not finite crashes and leaves one counted evaluation with the initial best |
| RunLife.PhantomExample | src/kernelyra/runtime.py:583-694 | one such life, whose stored best is 0 at step 0 after a single evaluation at -1 |
| Checkpoints.CheckpointManager.Record | src/kernelyra/checkpoints.py:39-56 | metadata is replaced by the payload with format, name, digest and size, exactly when the file is managed and exists |
| Checkpoints.PayloadMeans | src/kernelyra/checkpoints.py:42-48 | format, file name, digest and size are the manager's own, whatever the caller passed for them; every other entry is the caller's |
| Checkpoints.CheckpointManager.Verify | src/kernelyra/checkpoints.py:58-75 | accepts exactly the managed, intact checkpoints that match every expected entry |
| Checkpoints.CheckpointManager.Promote | src/kernelyra/checkpoints.py:77-86 | the destination holds the source's bytes with their own digest; failures change nothing |
| Checkpoints.CheckpointManager.DiscardLast | src/kernelyra/checkpoints.py:93-96 | only the last checkpoint and its metadata go |
| Checkpoints.VerifiedBytesAreTheRecorded | src/kernelyra/checkpoints.py:58-75 | with a collision-free digest a checkpoint is intact exactly when its bytes are those it was recorded for |
| WorkerRun.EvaluationInterval | src/kernelyra/runtime.py:525 | a positive interval; the default lies between 20 and 500 |
| WorkerRun.ChunkSteps | src/kernelyra/runtime.py:545-551 | between 1 and 100 steps, never past the next evaluation point or the step limit, one at a time on slow backends |
| WorkerRun.ChunkIsLargest | src/kernelyra/runtime.py:545-551 | a count fits a chunk exactly when it is one, or the backend is fast and the count is at most a hundred, the tuned cap, the steps left and the steps to the next evaluation, with at most 65536 samples in all |
| WorkerRun.NextMultiple | src/kernelyra/runtime.py:545 | the next multiple of the interval lies no nearer than the steps to evaluation |
| WorkerRun.CoverStep | src/kernelyra/runtime.py:545-574 | a step of at most the distance to the next evaluation point passes no multiple of the interval, and logs the one it hits |
| WorkerRun.AdaptedStays | src/kernelyra/runtime.py:782-796 | adaptation stays in range, at most doubles and at most halves, and does nothing outside auto mode |
| WorkerRun.CrashIff | src/kernelyra/runtime.py:552-625 | a turn crashes the loop exactly on a training failure, an out-of-memory that cannot shrink the batch, a due evaluation that fails, is not finite or cannot be saved or promoted, or a completion whose restore or test fails |
| WorkerRun.CountedIff | src/kernelyra/runtime.py:583-663 | a session ends with a counted but unrecorded evaluation exactly when a due evaluation was not finite, or was finite and could not be saved |
| WorkerRun.FlagsDecide | src/kernelyra/runtime.py:534-544 | a loop ends stopped exactly when the stop flag is up at its last head, paused exactly when only the pause flag is; with a flag it ends in the state of that head, and no earlier head saw a flag |
| WorkerRun.FlagEndsTheLoop | src/kernelyra/runtime.py:534-544 | a loop that reaches a head with a flag up ends at that very head, stopped if the stop flag is up and paused otherwise |
| WorkerRun.VerdictMeans | src/kernelyra/runtime.py:717-751 | the verdict on the scores alone: degraded when the last ones all lie below the best minus the margin, else on target, else out of patience, else at the limit |
| WorkerRun.TurnProgress | src/kernelyra/runtime.py:534-574 | a turn that goes on moves on below the limit, or shrinks the batch at the same step |
| WorkerRun.LoopTerminates | src/kernelyra/runtime.py:534-751 | the loop ends in every environment |
| WorkerRun.RunIsDetermined | src/kernelyra/runtime.py:534-751 | the environment decides the run: number of turns, end, step, batch and log |
| WorkerRun.EveryHead | src/kernelyra/runtime.py:534-751 | whenever a turn begins: the limit was not overshot, exactly the multiples of the interval since the start were evaluated, no verdict said stop, and the batch is in range |
| WorkerRun.EveryEnd | src/kernelyra/runtime.py:534-780 | whenever a loop ends: no overshoot and batch in range; unless it crashed every multiple of the interval was evaluated, and a completion carries the first verdict that said stop |
| WorkerRun.EvaluationsAreReported | src/kernelyra/runtime.py:571-663 | every logged evaluation was reported by the backend in a turn of its own, in order, at the step that training had reached, with its save |
| WorkerRun.EveryEvaluationWasReported | src/kernelyra/runtime.py:571-663 | the same for the log that a run ends with, whether its last turn completed, crashed or was flagged |
| WorkerRun.PlannedBatchStaysSafe | src/kernelyra/batch.py:81-88 | from the automatic plan through any run: the batch stays within safe_min and safe_max, and within the planned memory |
| WorkerLoop.WorkerLoop.constructor | src/kernelyra/runtime.py:520-525 | a fresh record at step zero with clean counters |
| WorkerLoop.WorkerLoop.ReduceAfterOom | src/kernelyra/runtime.py:561-570 | retries exactly in auto mode above the minimum, with half the batch or the minimum, which is strictly smaller |
| WorkerLoop.WorkerLoop.Train | src/kernelyra/runtime.py:552-573 | the reply decides: the executed steps and loss, a retry with a smaller batch, or a raise that changes nothing |
| WorkerLoop.WorkerLoop.AdaptBatch | src/kernelyra/runtime.py:782-796 | halved, but not below the minimum, when the last score fell by more than 0.04; doubled, but not above the maximum, on level evaluations two and four while eight batches fit the training records; otherwise unchanged; every change is counted |
| WorkerLoop.WorkerLoop.SaveLast | src/kernelyra/runtime.py:656-663 | a raised save or record leaves the metadata as it was; otherwise the last checkpoint is recorded; the managed best is untouched |
| WorkerLoop.WorkerLoop.PromoteLast | src/kernelyra/runtime.py:673-686 | the last checkpoint's bytes become the managed best, recorded with step and score |
| WorkerLoop.WorkerLoop.RecordEvaluation | src/kernelyra/runtime.py:586-711 | counters and best score are exactly those of the bookkeeping function, even when promoting the new best raises; the managed best follows an improvement that was promoted and survives everything else |
| WorkerLoop.WorkerLoop.UpdateBest | src/kernelyra/runtime.py:669-694 | a better score moves best, step and plateau, and then its checkpoint unless promoting raises; otherwise only the plateau moves |
| WorkerLoop.WorkerLoop.Judge | src/kernelyra/runtime.py:717-751 | the verdict, taken from running counters and guard, is the one defined on the scores alone |
| WorkerLoop.WorkerLoop.ConsultGuard | src/kernelyra/runtime.py:626-632 | the guard is asked about the last scores against the score itself on the first evaluation, against the best after that |
| WorkerLoop.WorkerLoop.Evaluate | src/kernelyra/runtime.py:626-751 | raises exactly when the save or the promotion of a new best does; otherwise the reported score is logged, recorded, adapted to and judged |
| WorkerLoop.WorkerLoop.CountScore | src/kernelyra/runtime.py:664-668 | streak and target hits follow the score |
| WorkerLoop.WorkerLoop.Conclude | src/kernelyra/runtime.py:712-751 | after a recorded evaluation: the adapted batch, the verdict on the scores, and a rejected checkpoint dropped |
| WorkerLoop.WorkerLoop.DropRejected | src/kernelyra/runtime.py:720-722 | the rejected last checkpoint goes; the best one stays managed and unchanged |
| WorkerLoop.WorkerLoop.Validate | src/kernelyra/runtime.py:583-751 | raises exactly on a failed or non-finite evaluation, a failed save or a failed promotion, and leaves the counter and the best that each of these leaves; otherwise one evaluation of the reported score |
| WorkerLoop.WorkerLoop.CompleteWithTest | src/kernelyra/runtime.py:753-780 | fails exactly when a restore that is due or a test that exists raises; otherwise the best checkpoint is restored and named as the tested one |
| WorkerLoop.WorkerLoop.Complete | src/kernelyra/runtime.py:717-750 | clamps the step on the limit verdict, and completes exactly when restore and test do |
| WorkerLoop.WorkerLoop.TestedModelIsTheBest | src/kernelyra/runtime.py:753-780 | with a sound best, a completion tested the restored checkpoint of the best score, under its own digest |
| WorkerLoop.WorkerLoop.Assess | src/kernelyra/runtime.py:583-751 | the evaluation half of a turn is the specified one, completion included |
| WorkerLoop.WorkerLoop.Pass | src/kernelyra/runtime.py:545-751 | one turn of the code is the turn function, branch by branch; a sound best stays sound |
| WorkerLoop.WorkerLoop.Run | src/kernelyra/runtime.py:513-780 | the whole loop runs exactly the turns that the environment dictates and ends as it dictates: stopped exactly on the stop flag, paused exactly on the pause flag alone; record, step, batch and loss are those of the reported evaluations; whatever the end, the managed best is the best score's with the bytes saved at it, if that evaluation's save wrote a file |
| WorkerLoop.WorkerLoop.Lifetime | src/kernelyra/runtime.py:513-780 | across any chain of sessions, however each ended: the record is that of the life they make, and the best is managed if the last session with a new best saved it |
| Batch.PowerFloorIsFloor | src/kernelyra/batch.py:29-31 | the largest power of two not above the value, but at least two |
| Batch.RangeIsSafe | src/kernelyra/batch.py:81-85 | 2 <= safe_min <= recommended <= safe_max, powers of two, within memory, dataset and profile |
| Batch.PlanIsSafe | src/kernelyra/batch.py:34-138 | the whole plan: error cases, the ordered safe range and its memory bound, what is applied, and that confirmation is asked exactly above the range |
| Batch.HeldOut | src/kernelyra/batch.py:48-49 | a fifth of the records is held out, but from 32 to 480 of them, and two stay for training |
| Batch.WishSteps | src/kernelyra/batch.py:50-61 | the wished batch doubles from 4 to 128 at five dataset sizes and is halved above 512 and quartered above 4096 features |
| Batch.UsableMeans | src/kernelyra/batch.py:74-79 | 35 percent of the granted memory, 80 on a workstation, where the reserve matters only below 40 gibibytes; never less than 256 mebibytes |
| Batch.UsableClips | src/kernelyra/batch.py:74-75 | a percentage or a memory size outside its range is taken at the nearest end |
| Batch.RangeIsLargest | src/kernelyra/batch.py:80-85 | safe_max is the largest power of two that the profile, the memory and half the training records admit, recommended is the wish cut to it, safe_min half of that |
| Batch.RequestIsHonoured | src/kernelyra/batch.py:90-115 | a manual request is applied as it is unless it exceeds the training records or the profile's bound, which then is applied |
| CyclicRows.CycleConcat | src/kernelyra/streaming.py:484-493 | two consecutive stretches of the repetition are one |
| CyclicRows.CycleShift | src/kernelyra/streaming.py:593-603 | a stretch depends on its start only through the residue |
| CyclicRows.NextSelected | src/kernelyra/streaming.py:487-491 | a row found to be in the split is the next item of the selection |
| CyclicRows.SelectedInOrder | src/kernelyra/streaming.py:487-491 | the selection is made of exactly the rows in the split, each once and in file order |
| CyclicRows.ResumeIsExactIff | src/kernelyra/streaming.py:447-450 | skipping the cursor modulo the declared training count lands right for every cursor exactly when the declared count is a multiple of the actual one |
| TabularStream.TrainingRows.Next | src/kernelyra/streaming.py:484-493 | the generator yields the next row of the endless repetition and fails exactly when the split is empty |
| TabularStream.StreamingTabularSource.Pull | src/kernelyra/streaming.py:521-523 | pulling n rows yields the next n of the repetition |
| TabularStream.StreamingTabularSource.EncodeMany | src/kernelyra/streaming.py:516-519 | all rows encode in order, or the call fails |
| TabularStream.StreamingTabularSource.NextBatch | src/kernelyra/streaming.py:559-577 | a batch is the encoded stretch of the repetition at the cursor; errors do not move the cursor, but an unencodable row leaves the generator in step exactly when the batch was a multiple of the split |
| TabularStream.StreamingTabularSource.RestoreRows | src/kernelyra/streaming.py:593-603 | a restored source stands at the cursor exactly when the two residues agree, and always when the declared count is the actual one |
| CyclicRows.SessionSplits | src/kernelyra/streaming.py:559-577 | the batches due after some batches are those due from the cursor they reach |
| CyclicRows.BatchSizesDoNotMatter | src/kernelyra/streaming.py:559-577 | however a session is cut into batches, it delivers one stretch of the repetition |
| CyclicRows.SessionSizes | src/kernelyra/streaming.py:559-577 | every batch of a session has the size that was asked for |
| CyclicRows.ReceivedMeans | src/kernelyra/streaming.py:516-523 | a reader receives the leading batches row by row encoded, all of them or up to the first that holds an unencodable row |
| TabularStream.ReadSession | src/kernelyra/streaming.py:559-577 | any source in step receives exactly the specified session, up to the first batch that does not encode |
| TabularStream.ReadAndResume | src/kernelyra/streaming.py:559-603 | two sources: one reads on, the other is restored at the first one's cursor; both receive the same batches, down to the one that does not encode, whenever the declared count is a multiple of the actual one |
| NativeStream.NumericCsvStream.constructor | native/bridge/cpp/core_abi.cpp:2118-2146 | a fresh stream stands at cursor zero |
| NativeStream.NumericCsvStream.NextLine | native/bridge/cpp/core_abi.cpp:303-309 | the next line, or a rewind that brings the whole split ahead again |
| NativeStream.NumericCsvStream.Advance | native/bridge/cpp/core_abi.cpp:2164-2165 | a selected line is the next item of the repetition |
| NativeStream.NumericCsvStream.NextBatch | native/bridge/cpp/core_abi.cpp:2150-2178 | terminates whenever the split has a row, and fills the buffer with the same stretch of the repetition as the portable source; fails exactly when a row of it does not encode |
| NativeStream.NumericCsvStream.Restore | native/bridge/cpp/core_abi.cpp:2185-2199 | fails exactly when the file ends before the cursor; otherwise stands at it, across the lazy rewind |
| NativeStream.ReadSession | native/bridge/cpp/core_abi.cpp:2150-2178 | a native stream in step receives the same session |
| NativeStream.ReadAndResume | native/bridge/cpp/core_abi.cpp:2150-2199 | two native streams: restoring at the other's cursor works exactly when the file holds enough rows, and then both receive the same |
| Prefetch.InvExec | src/kernelyra/streaming.py:525-603 | the producer's, queue's and consumer's rows form one line in every interleaving, with an error only at its end |
| Prefetch.PrefetchRefinesSynchronous | src/kernelyra/streaming.py:525-577 | for every schedule, batch sizes and restores: the delivered rows are the synchronous ones, none lost, repeated or reordered, and rows_consumed counts only them |
| Prefetch.FirstBatchSizesQueue | src/kernelyra/streaming.py:546-557 | the first batch sizes the queue for prefetch batches and the chunk to a batch of at most 256 rows; later batches leave both alone |
| Prefetch.LookAheadIsBounded | src/kernelyra/streaming.py:525-557 | in every schedule the producer runs ahead of what was handed out by at most the queue's capacity and one chunk |
| Prefetch.ProgressIff | src/kernelyra/streaming.py:525-577 | a waiting batch can progress exactly until an error was handed out; after that nothing reaches the queue again |
| Prefetch.StuckForEver | src/kernelyra/streaming.py:538-578 | a batch that waits after the error was handed out waits for ever: no schedule changes the state |
| Prefetch.UnencodableChunkSticks | src/kernelyra/streaming.py:525-578 | any source with an unencodable row in its first chunk reaches that state with its second batch |
| Prefetch.SticksIff | src/kernelyra/streaming.py:525-578 | a source, opened anywhere, has a schedule that raises and one that leaves a batch waiting for ever exactly when some row of its split does not encode |
| Prefetch.CleanSourceNeverRaises | src/kernelyra/streaming.py:525-544 | a source whose rows all encode never raises |
| Utf8.DecodeEncode | src/kernelyra/text_training.py:34-48 | every text survives encoding and decoding (RFC 3629, section 3) |
| Utf8.EncodeDecode | src/kernelyra/text_training.py:34-48 | only encodings decode, each to the text it encodes (RFC 3629, section 4) |
| Utf8.Section7Examples | src/kernelyra/text_training.py:34-37 | the byte sequences that RFC 3629 gives for five characters |
| Utf8.SliceBetweenBoundaries | src/kernelyra/text_training.py:112-113 | a stretch between two character boundaries is the encoding of a stretch of the text |
| Utf8.SliceDecodesIff | src/kernelyra/native_core.py:820-824 | a non-empty stretch of an encoded text decodes exactly when both ends are character boundaries |
| Utf8.ContinuationIsTheBitTest | src/kernelyra/text_training.py:75 | the masked bit test of the loop is the range test for continuation bytes |
| TextChunks.FloorUtf8Boundary | src/kernelyra/text_training.py:72-77 | the last character boundary at or before the clamped index |
| TextChunks.FloorIsNear | src/kernelyra/text_training.py:72-77 | the boundary is at most three bytes back |
| TextChunks.ProgressIff | src/kernelyra/text_training.py:95-99 | a chunk makes progress exactly when the next character fits the maximum |
| TextChunks.BreakPoint | src/kernelyra/text_training.py:102-110 | the end follows the last occurrence of the most preferred separator in the window, or closes the window, on a boundary |
| TextChunks.BestBreakEndsWell | src/kernelyra/text_training.py:102-110 | the chosen end: the whole window without a separator, otherwise behind the last occurrence of the most preferred byte among newline, space, full stop, exclamation and question mark |
| TextChunks.WindowsAgree | src/kernelyra/text_training.py:95-101 | the window of the code lies between the last boundaries within the minimum and within the target, or within the maximum when the target makes no progress |
| TextChunks.CutOne | src/kernelyra/text_training.py:95-124 | one span: fails exactly on a character longer than the maximum; otherwise it keeps to the target unless its first character is longer, ends behind the last of the most preferred separators between minimum and target, and its context is the overlap before it extended to a boundary |
| TextChunks.PythonChunkPlan | src/kernelyra/text_training.py:80-125 | terminates; succeeds exactly when every character fits, and then plans every byte once, each span within the target unless its first character alone is longer, with the preferred end and the context in terms of boundaries and byte positions |
| TextChunks.FourBytesAlwaysFit | src/kernelyra/text_training.py:98-99 | with a maximum of at least four bytes every text can be planned |
| TextChunks.ValidatePlan | src/kernelyra/native_core.py:814-838 | announced spans are accepted exactly when they form a valid plan |
| TextChunks.PlanTextChunks | src/kernelyra/native_core.py:783-838 | the two calls: a failure or an inconsistent count is refused, an announcement of no spans passes unchecked, anything else is validated |
| TextChunks.PassedPlanIsValidIff | src/kernelyra/native_core.py:797-798 | what passes is a valid plan exactly when spans were announced or the text is empty |
| TextChunks.UnplannedLetter | src/kernelyra/native_core.py:797-798 | a planner that announces no spans for the letter A is believed |
| TextChunks.PlanTextForTraining | src/kernelyra/text_training.py:128-176 | bounds are refused exactly when illegal; a native plan that passes wins; the plan covers the text exactly unless no spans were announced for a text with bytes |
| MaskedText.ByteTokenizer.DecodeTokens | src/kernelyra/text_training.py:39-48 | specials are dropped, a foreign token or invalid bytes are refused, everything else is decoded |
| MaskedText.KeptOfOne | src/kernelyra/text_training.py:41-47 | one token: a special one is dropped, a byte stays, anything else is refused |
| MaskedText.KeptOfJoined | src/kernelyra/text_training.py:39-48 | joined token lists keep what their parts keep, and are refused when one of the parts is |
| MaskedText.RefusedTokensIff | src/kernelyra/text_training.py:45-46 | a list is refused exactly when one of its tokens is neither special nor a byte |
| MaskedText.TokenizerRoundTripIff | src/kernelyra/text_training.py:27-48 | the tokenizer is reversible on a text exactly when no byte of it is a special id, so always with the default ids |
| MaskedText.PrepareExamples | src/kernelyra/text_training.py:179-225 | one example per span: targets are its bytes, inputs are shifted by one behind bos, loss only on content |
| MaskedText.EveryByteSupervisedIff | src/kernelyra/text_training.py:179-225 | concatenating the targets with loss over all examples gives the document's bytes exactly when the plan covers them |
| MaskedText.PrepareMaskedTextExamples | src/kernelyra/text_training.py:179-225 | from text to examples: every byte is supervised once and in order, or none at all when a native planner announced no spans |
| MaskedText.BatchExamples | src/kernelyra/text_training.py:228-256 | the four arrays hold the padded examples row by row; exactly which inputs are refused |
| MaskedText.PaddingKeepsSupervision | src/kernelyra/text_training.py:246-256 | padding neither adds nor removes a target with loss, and attention marks exactly the real tokens |
| MaskedText.IterBatches | src/kernelyra/text_training.py:259-270 | batches are consecutive slices of the examples, none left out, each between one and batch_size long |
| MaskedText.RunSupervisesTheDocument | src/kernelyra/text_training.py:179-270 | end to end: the targets with loss in all padded batches, read in order, are the bytes of the document and decode to it |
| Mixer.MixersAgree | src/kernelyra/planning.py:78-83 | masking unbounded integers equals wrapping 64-bit words for every integer |
| Mixer.MixFormula | native/bridge/cpp/context_policy.cpp:13-18 | the mixer as arithmetic: divisions by powers of two for its shifts around the two multiplications |
| Mixer.UnmixMix | native/bridge/cpp/context_policy.cpp:13-18 | the mixer has a left inverse |
| Mixer.MixUnmix | native/bridge/cpp/context_policy.cpp:13-18 | the mixer has a right inverse |
| Mixer.MixIsBijective | native/bridge/cpp/context_policy.cpp:13-18 | no two keys collide and every word is reached |
| ContextPolicy.SplitsAgree | src/kernelyra/planning.py:113-122 | the portable and the native split agree for every key and legal percentages, and the record split is the 15/15 context split |
| ContextPolicy.SplitByBucket | native/bridge/cpp/context_policy.cpp:20-28 | of the hundred residues of the mixed key the first belong to validation, the next to test; exactly which percentages the native policy refuses |
| ContextPolicy.EveryBucketIsDrawn | native/bridge/cpp/context_policy.cpp:20-28 | each residue is the residue of some key, which lies in the split that the percentages give it |
| ContextPolicy.Partition | src/kernelyra/planning.py:131-136 | each split receives its items in their original order, and the sizes add up |
| ContextPolicy.ChosenIff | src/kernelyra/planning.py:113-136 | an item is in a split exactly by the split of its context, so one context is never divided |
| ContextPolicy.ChosenInOrder | src/kernelyra/planning.py:131-136 | a split holds exactly the items at the positions whose context falls in it, each once and in ascending order of position |
| ContextPolicy.NextChunkSize | native/bridge/cpp/context_policy.cpp:30-39 | on wrapping words, for legal limits: between one and what remains, at most the maximum, below the minimum only when nothing is left after it |
| ContextPolicy.ChunkSizesAgree | src/kernelyra/planning.py:138-142 | portable and native sizes are equal whenever five times the target fits a word |
| ContextPolicy.DefaultRangesAgreeIff | src/kernelyra/planning.py:58-63 | with the default limits the two draw from the same range exactly when five times the target fits a word |
| ContextPolicy.DefaultSizesAgreeIff | src/kernelyra/planning.py:58-63 | with the default limits the sizes agree for every seed, sequence and remainder exactly when five times the target fits a word |
| ContextPolicy.ChunkSizeFits | src/kernelyra/planning.py:138-142 | the portable size obeys the limits and the remainder |
| ContextPolicy.BoundsAreQuarters | src/kernelyra/planning.py:139-140 | the range reaches from three quarters to five quarters of the target, as far as the limits allow |
| ContextPolicy.EverySizeIsDrawn | src/kernelyra/planning.py:138-142 | for every sequence number each size of the range is drawn by some seed, and cut to what remains |
| ContextPolicy.ChunkRanges | src/kernelyra/planning.py:144-172 | contiguous ranges that partition the records, each within the limits but the last, and each of the size drawn with its own number from what remains before it; the size check never fires |
| ContextPolicy.EveryRecordOnce | src/kernelyra/planning.py:144-172 | every record lies in exactly one range |
| ExecutionPlan.ScaleFits | native/bindings/c/kernelyra_policy.c:9-13 | the saturation test holds exactly when the product does not fit |
| ExecutionPlan.DividedPercentIsExact | native/bindings/c/kernelyra_policy.c:15-24 | divide-before-multiply is the exact floor of u*p/100 and never wraps |
| ExecutionPlan.RecordsFromMemory | native/bindings/c/kernelyra_policy.c:15-24 | the records that fit the share of memory, as one exact quotient |
| ExecutionPlan.PackTable | native/bindings/c/kernelyra_policy.c:110-123 | the constants of the four algorithm packs |
| ExecutionPlan.RefusalIff | native/bindings/c/kernelyra_policy.c:95-108 | exactly which requests are refused, and as what: the version first, the accelerator before the threads |
| ExecutionPlan.TargetMeans | native/bindings/c/kernelyra_policy.c:124-128 | the target is one quotient of memory, percentage and record size, bounded by the dataset |
| ExecutionPlan.ShareMeans | native/bindings/c/kernelyra_policy.c:9-13 | a share is the percentage rounded down, or everything once the product no longer fits, bounded by the dataset |
| ExecutionPlan.MakeLimits | native/bindings/c/kernelyra_policy.c:130-137 | minimum and maximum are the exact or saturated shares; the minimum exceeds the target exactly when its product saturates |
| ExecutionPlan.ChooseThreads | native/bindings/c/kernelyra_policy.c:138-141 | requested threads or the percentage rounded up, and strictly fewer data workers |
| ExecutionPlan.MakePlan | native/bindings/c/kernelyra_policy.c:85-149 | every refusal in its order; otherwise every field of the plan, which is a legal cursor configuration |
| ExecutionPlan.AdaptiveChunkSize | native/bridge/cpp/core_abi.cpp:1371-1392 | legal chunk sizes even when the scaled target wraps |
| ExecutionPlan.PressureScale | native/bridge/cpp/core_abi.cpp:1384-1386 | between 45 and 100 percent of the target, falling linearly with the pressure up to rounding |
| ExecutionPlan.AggressionScale | native/bridge/cpp/core_abi.cpp:1385-1387 | between 100 and 135 percent, rising linearly with the aggression up to rounding |
| ExecutionPlan.AdaptiveTarget | native/bridge/cpp/core_abi.cpp:1384-1392 | a target of whole ten thousands is scaled by exactly the two percentages and clamped; without pressure and aggression the policy's own size is drawn |
| ExecutionPlan.ChunksCoverRecords | native/bindings/c/kernelyra_policy.c:47-63 | a cursor's chunks sum to its records, each at most the maximum and only the last below the minimum |
| ExecutionPlan.ChunksAreDrawn | native/bindings/c/kernelyra_policy.c:47-63 | each chunk is the adaptive size for its own wrapping sequence number and what the earlier ones left |
| ExecutionPlan.ChunkCursor.Init | native/bindings/c/kernelyra_policy.c:26-45 | exactly which limits are refused, and the whole new cursor |
| ExecutionPlan.ChunkCursor.InitFromPlan | native/bindings/c/kernelyra_policy.c:70-83 | every plan that was made configures a cursor with its limits and pressure |
| ExecutionPlan.ChunkCursor.Next | native/bindings/c/kernelyra_policy.c:47-63 | hands out the next chunk of the specified list, zero at the end |
| ColumnStatistics.TracksMore | native/bridge/cpp/core_abi.cpp:616-620 | one running-mean step keeps mean and squared deviation exact |
| ColumnStatistics.TracksMeansStatistics | native/bridge/cpp/core_abi.cpp:635-644 | the running form is the mean and variance of sums and sums of squares |
| ColumnStatistics.VarianceIsMeanSpread | native/bridge/cpp/core_abi.cpp:635-644 | the variance is the mean of the squared distances from the mean |
| ColumnStatistics.VarianceIsNonNegative | src/kernelyra/streaming.py:386-393 | over exact numbers the clamp at zero is never needed |
| ColumnStatistics.ScanStatistics | native/bridge/cpp/core_abi.cpp:581-651 | accepts a complete table exactly with enough rows and no constant feature, and returns the textbook statistics of the training values |
| ColumnStatistics.SpecStatistics | src/kernelyra/streaming.py:354-393 | the sum form returns the same statistics, zero for a column without values |
| BinaryUpdate.SumOfPermutation | native/bridge/cpp/core_abi.cpp:900-908 | over exact numbers the order of the rows does not matter |
| BinaryUpdate.PartitionedSum | native/bridge/cpp/core_abi.cpp:912-923 | partitioning a sum over threads loses and repeats nothing |
| BinaryUpdate.DotIsSum | native/bridge/cpp/core_abi.cpp:771-783 | the score is the sum of feature times weight over all features |
| BinaryUpdate.DotIsLinear | native/bridge/cpp/core_abi.cpp:771-783 | moving one weight moves the score by its own feature, and zero weights score zero |
| BinaryUpdate.Model.TrainBinary | native/bridge/cpp/core_abi.cpp:1033-1055 | weights, bias and loss are those of one exact gradient step at the scores that DotIsSum characterises |
| BinaryUpdate.Model.ResetWorkspace | native/bridge/cpp/core_abi.cpp:870-883 | the reused workspace is large enough and zero in the part in use, whatever it held |
| BinaryUpdate.Model.RunRows | native/bridge/cpp/core_abi.cpp:894-911 | each thread's slice holds the sums of its own rows, for any schedule |
| BinaryUpdate.Model.TrainBinaryParallel | native/bridge/cpp/core_abi.cpp:886-934 | for every assignment of rows to threads and any stale workspace, the result is that of the sequential step |
| BinaryUpdate.Model.UpdateIsDetermined | native/bridge/cpp/core_abi.cpp:1050-1055 | the update depends only on batch and parameters; asking for the loss does not touch it |
| BinaryUpdate.Model.StepOnOneRow | native/bridge/cpp/core_abi.cpp:1037-1055 | on a single row every weight moves against its own feature times the prediction error, and decays; the bias moves against the error |
| BinaryUpdate.AdvanceFormula | native/bridge/cpp/core_abi.cpp:654-659 | the generator as arithmetic: shifts by 12, 25 and 27 bits |
| BinaryUpdate.FirstDraw | native/bridge/cpp/core_abi.cpp:654-659 | the state advances before a draw, which multiplies it with wrap-around and reduces it to a row |
| BinaryUpdate.DrawsGoOn | native/bridge/cpp/core_abi.cpp:1266-1301 | further draws go on from the state that the earlier ones left |
| BinaryUpdate.Model.TrainRandomStep | native/bridge/cpp/core_abi.cpp:1266-1301 | one step on a batch drawn by the generator, with the generator's new state and the loss; refused arguments change nothing |
| BinaryUpdate.Model.TrainRandomSteps | native/bridge/cpp/core_abi.cpp:1920-1937 | k bulk steps leave parameters and generator where k single steps would, and report the last loss; a refused call changes nothing |
| NumericField.ParseNumericField | native/bridge/cpp/core_abi.cpp:234-291 | the scanning parser returns the float of the parse function that the next rows characterise, and nothing when the field is not read or its float is not finite |
| Numerals.ParsePrint | native/bridge/cpp/core_abi.cpp:234-287 | before rounding: every written numeral is read with its sign, its digits and its exponent, the written power saturating at a thousand, and is not read exactly when that exponent leaves forty-five |
| Numerals.ReadIff | native/bridge/cpp/core_abi.cpp:234-287 | before rounding: nothing but such numerals is read |
| Numerals.AcceptedIff | native/bridge/cpp/core_abi.cpp:234-291 | a field is accepted exactly when it is a numeral of which a decimal with a finite float is made |
| Numerals.ReadRightIff | native/bridge/cpp/core_abi.cpp:261-287 | before rounding: a numeral that is read is read as the number it denotes exactly when its written power is at most a thousand or its digits are zero |
| Numerals.RefusedIff | native/bridge/cpp/core_abi.cpp:261-291 | a numeral whose own exponent is in range is refused exactly when its power exceeds a thousand and the saturated exponent leaves the range, or when its float is not finite |
| Numerals.AcceptedFloatIff | native/bridge/cpp/core_abi.cpp:286-291 | with rounding to the nearest single-precision float: accepted exactly when the saturated exponent is in range and the number is below the overflow |
| Numerals.TooLarge | native/bridge/cpp/core_abi.cpp:286-291 | 1e40 is read as denoted, and refused because its float is not finite |
| Numerals.WrongNumber | native/bridge/cpp/core_abi.cpp:270-290 | a field that denotes ten to the 4030 is read as ten to the 30 |
| NumericField.ParseTrimmed | native/bridge/cpp/core_abi.cpp:201-207 | trimming a field first never changes what it parses to |
| CsvRow.SplitCsv | native/bridge/cpp/core_abi.cpp:209-232 | the character loop computes the specified fields, none for an open quote |
| CsvRow.QuotedRoundTrip | native/bridge/cpp/core_abi.cpp:209-232 | any row written with quoted fields (RFC 4180, section 2) is read back, delimiters and quotes included, up to trimming |
| CsvRow.FieldsOfPlain | native/bridge/cpp/core_abi.cpp:209-232 | without quotes the fields are the trimmed stretches between delimiters |
| CsvRow.ReadField | native/bridge/cpp/core_abi.cpp:327-350 | one field: refused exactly when needed and unusable; otherwise its value lands at its own feature only |
| CsvRow.TargetMeans | native/bridge/cpp/core_abi.cpp:339-347 | the target of a regression is the value of its field; of a classification, the index of the first class that equals it, and there is none exactly when no class does |
| CsvRow.AcceptsIff | native/bridge/cpp/core_abi.cpp:327-358 | a row is accepted exactly when it has the right width, every needed field is a number, and a classification label is one of the classes |
| CsvRow.ScanRow | native/bridge/cpp/core_abi.cpp:313-358 | the scan accepts exactly the unquoted rows of the right width whose needed fields are numbers, and places their values |
| CsvRow.EncodeStreamRow | native/bridge/cpp/core_abi.cpp:311-359 | in place, it accepts exactly the unquoted rows of the right width with a number in every needed field and a known class, and returns the same values at the same features and the target as the regression value or the index of its class |
| Metrics.ClassSums | src/kernelyra/metrics.py:49-59 | summed over the classes: hits are the correct rows, false positives and false negatives both the wrong ones, matrix rows the supports |
| Metrics.HalfFraction | src/kernelyra/metrics.py:60-66 | micro-averaged F1 of those sums equals accuracy |
| Metrics.MulticlassMetrics | src/kernelyra/metrics.py:43-70 | the matrix cell by cell, its total, and that the reported micro_f1 is the real one |

## Left out

* Rebalancing of gpu shares (it saves records outside the lock and may exceed the cap), the deletion of runs, and a
  `start` or `resume` command that finds the scheduler dead: boot recovery is an initial state and a separate lemma.
* Everything `_train` does around the loop: opening the backend, the fine-tune baseline, restoring a checkpoint on
  resume. A worker may load its record, compute anything, save, and leave in any way.
* A promotion that raises is modelled for a save that wrote its file; one of a file left by an earlier save is not.
* Inside `WorkerLoop` the periodic saves of the record are not repeated; they are the save steps of `Lifecycle`.
* Messages are symbols, and the trace, action log, health report and elapsed-time throttling are not modelled.
* SQLite storage, HTTP, MCP, daemon, CLI, SDK wrappers, hardware detection, OS locks, reports and pack files.
* The Rust, Zig and Fortran components and the array backends: the C++ fallbacks and an arbitrary environment stand in
  for them. `NativeTensorArena` is not part of this model.
* Floating-point rounding, NaN propagation and the resulting refusals: reals are exact, and `sigmoid`, cross entropy and
  the rounding of a decimal to a float are arbitrary functions. Square roots and `log` are not modelled; deviations
  appear as variances.
* sha256 is an arbitrary function (injective where a lemma says so), blake2b keys are arbitrary integers, and the
  quality of random draws is not a claim.
* Streaming: the source does not change, the training split is re-read in the same order, native files have no blank
  lines, the producer's join timeout and the closed-while-waiting case are not modelled.
* Text is a sequence of Unicode scalar values; lone surrogates, which do not encode, are excluded by the type.
* The per-thread workspace is a two-dimensional array here and one flat vector with offsets in the source; the regression
  and multiclass kernels and the thread count heuristics are left out, as they repeat the binary case.
* Per-class and macro F1, AUC and regression metrics.
* Target classes and task detection during scanning, group-column detection and categorical hashing.
- Prefetch.ProgressIff: speaks of enabled steps, not of fairness between threads.
- NumericField.ParseNumericField: the mantissa is an exact integer, where the source accumulates a double; what that
  and the cast to a float make of a decimal is the arbitrary rounding.
- Numerals.AcceptedFloatIff: assumes one rounding to the nearest float; the source rounds to a double first, which may
  differ at the overflow itself.
- ColumnStatistics.ScanStatistics: returns variances, where the source returns float deviations.
