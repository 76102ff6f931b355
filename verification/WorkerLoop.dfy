/** The training loop of one worker thread against an arbitrary backend and control environment. */
module WorkerLoop {
  import opened Options
  import opened Modular
  import opened ModelGuard
  import opened EvaluationBook
  import opened Checkpoints
  import opened WorkerRun
  import opened RunLife

  datatype CheckpointInfo = CheckpointInfo(digest: Digest, step: nat)

  /** One session in the life of a run: how the loop opened, how many whole turns it made, how it ended. */
  datatype SessionLog = SessionLog(start: Book, entry: LoopState, turns: nat, ending: Ending, restores: bool)

  class WorkerLoop {
    const runId: nat
    const c: Config
    const checkpoints: CheckpointManager

    var step: nat
    var loss: real
    var batchSize: nat
    var batchAdjustments: nat
    var evalCount: nat
    var bestScore: real
    var bestStep: nat
    var plateau: nat
    var targetHits: nat
    var degradationStreak: nat
    var recentScores: seq<real>
    var bestInfo: Option<CheckpointInfo>
    var lastInfo: Option<CheckpointInfo>
    var restored: Option<Bytes>
    var testedCheckpoint: Option<Digest>

    ghost function Books(): Book
      reads this
    {
      Book(evalCount, bestScore, bestStep, plateau, targetHits, degradationStreak, recentScores)
    }

    /** What a session leaves in the stored record. */
    ghost function Kept(): Stored
      reads this
    {
      Stored(evalCount, bestScore, bestStep)
    }

    /** The loop's state, given what it has logged. */
    ghost function Here(evals: seq<Evaluation>, saves: seq<SaveReply>): LoopState
      reads this`step, this`loss, this`batchSize, this`batchAdjustments
    {
      LoopState(step, loss, batchSize, batchAdjustments, evals, saves)
    }

    /** The fields stand for s in a loop that opened with `start`. */
    ghost predicate At(start: Book, s: LoopState)
      reads this
    {
      Here(s.evals, s.saves) == s && Books() == After(start, c.policy, s.evals)
    }

    ghost predicate Valid() {
      LegalConfig(c)
    }

    /** The managed best checkpoint is the one recorded at `bestStep` with `bestScore`. */
    predicate BestIsManaged()
      reads this`bestScore, this`bestStep, this`bestInfo, checkpoints
    {
      && checkpoints.Intact(Best(runId))
      && Step in checkpoints.meta[Best(runId)]
      && checkpoints.meta[Best(runId)][Step] == Number(bestStep as real)
      && BestScore in checkpoints.meta[Best(runId)]
      && checkpoints.meta[Best(runId)][BestScore] == Number(bestScore)
      && bestInfo == Some(CheckpointInfo(checkpoints.sha256(checkpoints.files[Best(runId)]), bestStep))
    }

    function BestFile(): Option<Bytes>
      reads checkpoints
    {
      if Best(runId) in checkpoints.files then Some(checkpoints.files[Best(runId)]) else None
    }

    constructor (runId: nat, c: Config, batchSize: nat, checkpoints: CheckpointManager)
      requires LegalConfig(c)
      ensures Valid() && Opening(Books()) && Kept() == FRESH && step == 0
      ensures this.runId == runId && this.c == c && this.batchSize == batchSize && this.checkpoints == checkpoints
    {
      this.runId, this.c, this.batchSize, this.checkpoints := runId, c, batchSize, checkpoints;
      step, loss, batchAdjustments := 0, 0.0, 0;
      evalCount, bestScore, bestStep := 0, 0.0, 0;
      plateau, targetHits, degradationStreak, recentScores := 0, 0, 0, [];
      bestInfo, lastInfo, restored, testedCheckpoint := None, None, None, None;
    }

    // ---------------------------------------------------------------- training

    /** Retries exactly when the batch may shrink, and then halves it. */
    method ReduceAfterOom() returns (retry: bool)
      modifies this`batchSize, this`batchAdjustments
      ensures retry <==> c.auto && old(batchSize) > c.batchMin
      ensures retry ==>
        && c.batchMin <= batchSize < old(batchSize)
        && (batchSize == old(batchSize) / 2 || (batchSize == c.batchMin && old(batchSize) / 2 < c.batchMin))
        && batchAdjustments == old(batchAdjustments) + 1
      ensures !retry ==> batchSize == old(batchSize) && batchAdjustments == old(batchAdjustments)
    {
      retry := c.auto && batchSize > c.batchMin;
      if retry {
        batchSize := Max(c.batchMin, batchSize / 2);
        batchAdjustments := batchAdjustments + 1;
      }
    }

    /** Ask the backend for some steps. `None` reports a raised exception, 0 a retry with a smaller batch. */
    method Train(reply: TrainReply, ghost s: LoopState) returns (executed: Option<nat>)
      requires Valid() && Here(s.evals, s.saves) == s
      modifies this`step, this`loss, this`batchSize, this`batchAdjustments
      ensures reply.Trained? ==>
        && loss == reply.loss && 1 <= step - old(step)
        && executed == Some(step - old(step)) && batchSize == old(batchSize)
      ensures !reply.Trained? ==> step == old(step) && loss == old(loss)
      ensures executed.None? <==> reply.TrainFailed? || (reply.OutOfMemory? && !CanShrink(c, s.batch))
      ensures executed == Some(0) <==> reply.OutOfMemory? && CanShrink(c, s.batch)
      ensures Here(s.evals, s.saves) ==
              if reply.Trained? then Stepped(c, s, reply.loss)
              else if executed == Some(0) then Resized(s, Halved(c, s.batch))
              else s
    {
      hide ChunkSteps;
      var chunk := ChunkSteps(c, step, batchSize);
      var count := if chunk > 1 && c.bulkSteps then chunk else 1;
      match reply
      case TrainFailed => executed := None;
      case OutOfMemory =>
        var retry := ReduceAfterOom();
        executed := if retry then Some(0) else None;
      case Trained(l) =>
        step := step + count;
        loss := l;
        executed := Some(count);
    }

    // ---------------------------------------------------------------- evaluating

    /** Halve on an unstable validation, double early in a run on a stable one, otherwise leave the batch. */
    method AdaptBatch()
      modifies this`batchSize, this`batchAdjustments
      ensures batchSize == Adapted(c, old(batchSize), Books())
      ensures var n, size := |recentScores|, old(batchSize);
        var fell := n >= 3 && (recentScores[n - 1] + 0.04 < recentScores[n - 2]
                               || recentScores[n - 1] + 0.04 < recentScores[n - 3]);
        var level := n >= 2 && recentScores[n - 1] <= recentScores[n - 2] + 0.02
                     && recentScores[n - 2] <= recentScores[n - 1] + 0.02;
        if c.auto && fell && size > c.batchMin then
          && batchAdjustments == old(batchAdjustments) + 1
          && if size / 2 >= c.batchMin then batchSize == size / 2 else batchSize == c.batchMin
        else if c.auto && level && (evalCount == 2 || evalCount == 4)
                && size < c.batchMax && 8 * size <= c.trainRecords then
          && batchAdjustments == old(batchAdjustments) + 1
          && if 2 * size <= c.batchMax then batchSize == 2 * size else batchSize == c.batchMax
        else batchSize == size && batchAdjustments == old(batchAdjustments)
      ensures batchAdjustments == old(batchAdjustments)
        + if Shrinks(c, old(batchSize), Books()) || Grows(c, old(batchSize), Books()) then 1 else 0
    {
      if !c.auto { return; }
      var n := |recentScores|;
      var current := batchSize;
      if n >= 3 && current > c.batchMin {
        var peak := if recentScores[n - 2] >= recentScores[n - 3] then recentScores[n - 2] else recentScores[n - 3];
        if recentScores[n - 1] < peak - 0.04 {
          batchSize := Max(c.batchMin, current / 2);
          batchAdjustments := batchAdjustments + 1;
          return;
        }
      }
      var stable := n >= 2 && -0.02 <= recentScores[n - 1] - recentScores[n - 2] <= 0.02;
      if evalCount in {2, 4} && stable && current < c.batchMax && c.trainRecords >= current * 8 {
        batchSize := Min(c.batchMax, current * 2);
        batchAdjustments := batchAdjustments + 1;
      }
    }

    /** The worker writes its last checkpoint (or raises), and whatever file is there is recorded. */
    method SaveLast(score: real, save: SaveReply) returns (ok: bool, last: Option<CheckpointInfo>)
      modifies checkpoints
      ensures ok <==> !save.SaveFailed?
      ensures !ok ==> checkpoints.meta == old(checkpoints.meta)
      ensures checkpoints.files == match Written(save)
        case None => old(checkpoints.files)
        case Some(bytes) => old(checkpoints.files)[Last(runId) := bytes]
      ensures forall path :: path != Last(runId) ==>
        (path in checkpoints.meta <==> path in old(checkpoints.meta)) &&
        (path in checkpoints.meta ==> checkpoints.meta[path] == old(checkpoints.meta)[path])
      ensures ok ==> (last.Some? <==> Last(runId) in checkpoints.files)
      ensures old(BestIsManaged()) ==> BestIsManaged()
      ensures BestFile() == old(BestFile())
      ensures ok && last.Some? ==>
        last.value == CheckpointInfo(checkpoints.sha256(checkpoints.files[Last(runId)]), step)
    {
      last := None;
      var written := Written(save);
      if written.Some? {
        checkpoints.files := checkpoints.files[Last(runId) := written.value];
      }
      if save.SaveFailed? { return false, None; }
      if Last(runId) in checkpoints.files {
        var recorded := checkpoints.Record(Last(runId), map[Score := Number(score), Step := Number(step as real)]);
        last := Some(CheckpointInfo(checkpoints.sha256(checkpoints.files[Last(runId)]), step));
      }
      ok := true;
    }

    /** The last checkpoint becomes the best one. */
    method PromoteLast(last: CheckpointInfo)
      requires Last(runId) in checkpoints.files
      modifies this`bestInfo, this`lastInfo, checkpoints
      ensures bestStep == step ==> BestIsManaged()
      ensures checkpoints.files == old(checkpoints.files)[Best(runId) := old(checkpoints.files)[Last(runId)]]
      ensures lastInfo == Some(last)
    {
      var promoted := checkpoints.Promote(Last(runId), Best(runId),
        map[Score := Number(bestScore), Step := Number(step as real), BestScore := Number(bestScore),
            Kind := Text("best")]);
      bestInfo := Some(CheckpointInfo(checkpoints.sha256(checkpoints.files[Best(runId)]), step));
      lastInfo := Some(last);
    }

    /** The counters of the evaluation that only look at its score. */
    method CountScore(score: real, previousBest: real)
      modifies this`degradationStreak, this`targetHits
      ensures degradationStreak ==
        if evalCount > 1 && score < previousBest - c.policy.degradationMargin then old(degradationStreak) + 1 else 0
      ensures targetHits == if score >= c.policy.targetScore then old(targetHits) + 1 else 0
    {
      if evalCount > 1 && score < previousBest - c.policy.degradationMargin {
        degradationStreak := degradationStreak + 1;
      } else {
        degradationStreak := 0;
      }
      targetHits := if score >= c.policy.targetScore then targetHits + 1 else 0;
    }

    /** Save the last checkpoint, then update the counters, the best score and its managed checkpoint.
        False reports a raised exception: of the save, or of a promotion once the best score was assigned. */
    method RecordEvaluation(score: real, save: SaveReply) returns (ok: bool)
      requires Valid()
      modifies this`evalCount, this`recentScores, this`bestScore, this`bestStep, this`plateau
      modifies this`degradationStreak, this`targetHits, this`bestInfo, this`lastInfo, checkpoints
      ensures var improves := Improves(old(Books()), c.policy, score);
        && (ok <==> !save.SaveFailed? && !(save.PromoteFailed? && improves))
        && (!save.SaveFailed? ==> Books() == Recorded(old(Books()), c.policy, Evaluation(step, score)))
        && (save.SaveFailed? ==>
              && evalCount == old(evalCount) + 1 && bestScore == old(bestScore) && bestStep == old(bestStep)
              && plateau == old(plateau))
        && (save.SaveFailed? || !improves ==>
              (old(BestIsManaged()) ==> BestIsManaged()) && BestFile() == old(BestFile()))
        && (save.Wrote? && improves ==> BestIsManaged() && BestFile() == Some(save.bytes))
        && (save.PromoteFailed? && improves ==>
              bestInfo == old(bestInfo) && BestFile() == if save.replaced then Some(save.bytes) else old(BestFile()))
    {
      hide BestIsManaged, BestFile, Tail, LegalPolicy;
      var previousBest := bestScore;
      evalCount := evalCount + 1;
      recentScores := Tail(recentScores + [score], 4);
      var last;
      ok, last := SaveLast(score, save);
      if !ok { return; }
      CountScore(score, previousBest);
      ok := UpdateBest(score, last, save);
    }

    /** A better score becomes the best before its checkpoint is promoted; false reports that promoting raised. */
    method UpdateBest(score: real, last: Option<CheckpointInfo>, save: SaveReply) returns (ok: bool)
      requires last.Some? <==> Last(runId) in checkpoints.files
      requires Written(save).Some? ==> last.Some? && checkpoints.files[Last(runId)] == Written(save).value
      modifies this`bestScore, this`bestStep, this`plateau, this`bestInfo, this`lastInfo, checkpoints
      ensures var improves := evalCount == 1 || score > old(bestScore) + c.policy.minImprovement;
        && (ok <==> !(improves && save.PromoteFailed?))
        && bestScore == (if improves then score else old(bestScore))
        && bestStep == (if improves then step else old(bestStep))
        && plateau == (if improves then 0 else old(plateau) + 1)
        && (!improves ==> (old(BestIsManaged()) ==> BestIsManaged()) && BestFile() == old(BestFile()))
        && (improves && ok && last.Some? ==>
              BestIsManaged() && BestFile() == Some(old(checkpoints.files)[Last(runId)]))
        && (improves && !ok ==>
              bestInfo == old(bestInfo) && BestFile() == if save.replaced then Some(save.bytes) else old(BestFile()))
    {
      ok := true;
      if evalCount == 1 || score > bestScore + c.policy.minImprovement {
        bestScore, bestStep, plateau := score, step, 0;
        if save.PromoteFailed? {
          if save.replaced { checkpoints.files := checkpoints.files[Best(runId) := save.bytes]; }
          return false;
        }
        if last.Some? { PromoteLast(last.value); }
      } else {
        plateau := plateau + 1;
        if last.Some? { lastInfo := last; }
      }
    }

    /** The tests that end a run after an evaluation, in their order of precedence. */
    method Judge(ghost start: Book, ghost evals: seq<Evaluation>, guard: Assessment) returns (verdict: Verdict)
      requires Valid() && Opening(start) && evals != []
      requires Books() == After(start, c.policy, evals) && evals[|evals| - 1].step == step
      requires GuardAgrees(start, evals, guard)
      ensures verdict == VerdictAt(start, c.policy, evals, |evals|, c.maxSteps)
      ensures verdict == ModelDegradation <==> degradationStreak >= c.policy.degradationPatience
      ensures verdict == TargetReached <==>
        degradationStreak < c.policy.degradationPatience && targetHits >= c.policy.targetPatience
      ensures verdict == EarlyStopping <==>
        && degradationStreak < c.policy.degradationPatience && targetHits < c.policy.targetPatience
        && plateau > c.policy.earlyStoppingPatience
      ensures verdict == KeepTraining ==> step < c.maxSteps
      ensures verdict == MaxSteps ==> step >= c.maxSteps
    {
      var init := evals[..|evals| - 1];
      assert init + [evals[|evals| - 1]] == evals && evals[..|evals|] == evals;
      GuardsAgree(start, c.policy, init, evals[|evals| - 1]);
      StreakIsTrailingCount(start, c.policy, evals);
      HitsAreTrailingCount(start, c.policy, evals);
      if degradationStreak >= c.policy.degradationPatience || guard.restore {
        return ModelDegradation;
      }
      if targetHits >= c.policy.targetPatience {
        return TargetReached;
      }
      if plateau > c.policy.earlyStoppingPatience {
        return EarlyStopping;
      }
      if step >= c.maxSteps {
        return MaxSteps;
      }
      return KeepTraining;
    }

    /** One evaluation: guard, checkpoint, bookkeeping, batch adaptation and verdict. `None` reports an
        exception raised by the save or the promotion. */
    method Evaluate(ghost start: Book, ghost s: LoopState, score: real, save: SaveReply)
      returns (verdict: Option<Verdict>)
      requires Valid() && Opening(start) && At(start, s)
      modifies this`evalCount, this`recentScores, this`bestScore, this`bestStep, this`plateau
      modifies this`degradationStreak, this`targetHits, this`bestInfo, this`lastInfo
      modifies this`batchSize, this`batchAdjustments, checkpoints
      ensures var improves := Improves(old(Books()), c.policy, score);
        && (verdict.None? <==> save.SaveFailed? || (save.PromoteFailed? && improves))
        && (save.SaveFailed? ==>
              && Here(s.evals, s.saves) == s
              && evalCount == old(evalCount) + 1 && bestScore == old(bestScore) && bestStep == old(bestStep)
              && plateau == old(plateau))
        && (save.PromoteFailed? && improves ==> At(start, Logged(s, score, save)))
        && (verdict.Some? ==>
              && var s' := Evaluated(c, start, s, score, save);
              && At(start, s')
              && verdict.value == VerdictAt(start, c.policy, s'.evals, |s'.evals|, c.maxSteps))
        && (save.SaveFailed? || !improves ==>
              (old(BestIsManaged()) ==> BestIsManaged()) && BestFile() == old(BestFile()))
        && (save.Wrote? && improves ==> BestIsManaged() && BestFile() == Some(save.bytes))
    {
      hide After, VerdictAt, BestIsManaged, BestFile, GuardCount, Improves, Opening, Adjusted, LegalPolicy;
      ghost var e := Evaluation(step, score);
      ghost var evals := s.evals + [e];
      assert evals[..|s.evals|] == s.evals;
      AfterMore(start, c.policy, s.evals, e);
      RecentIsTail(start, c.policy, s.evals);
      var guard := ConsultGuard(score);
      GuardOfLog(start, evals, guard, score);
      var ok := RecordEvaluation(score, save);
      if !ok { return None; }
      EvaluatedShape(c, start, s, score, save);
      var v := Conclude(start, Logged(s, score, save), guard);
      verdict := Some(v);
    }

    lemma GuardOfLog(start: Book, evals: seq<Evaluation>, guard: Assessment, score: real)
      requires evals != [] && evals[|evals| - 1].score == score && guard.Assessed?
      requires Books() == After(start, c.policy, evals[..|evals| - 1])
      requires guard.consecutive == GuardCount(Books(), c.policy, score)
      requires guard.restore <==> guard.consecutive >= c.policy.degradationPatience
      ensures GuardAgrees(start, evals, guard)
    {
    }

    /** The guard was asked just before the last evaluation of the log. */
    ghost predicate GuardAgrees(start: Book, evals: seq<Evaluation>, guard: Assessment) {
      && evals != [] && guard.Assessed?
      && (guard.restore <==> guard.consecutive >= c.policy.degradationPatience)
      && var init, last := evals[..|evals| - 1], evals[|evals| - 1];
        guard.consecutive == GuardCount(After(start, c.policy, init), c.policy, last.score)
    }

    /** What follows a recorded evaluation: adapt the batch, judge, and drop a rejected checkpoint. */
    method Conclude(ghost start: Book, ghost s: LoopState, guard: Assessment) returns (verdict: Verdict)
      requires Valid() && Opening(start) && At(start, s)
      requires s.evals != [] && s.evals[|s.evals| - 1].step == step && GuardAgrees(start, s.evals, guard)
      modifies this`batchSize, this`batchAdjustments, this`lastInfo, checkpoints
      ensures At(start, Adjusted(c, start, s))
      ensures verdict == VerdictAt(start, c.policy, s.evals, |s.evals|, c.maxSteps)
      ensures (old(BestIsManaged()) <==> BestIsManaged()) && BestFile() == old(BestFile())
    {
      hide After, VerdictAt, BestIsManaged, BestFile, GuardCount, Opening, Shrinks, Grows, Adapted, LegalPolicy;
      AdaptBatch();
      SameBatchUnlessResized(c, s.batch, Books());
      verdict := Judge(start, s.evals, guard);
      if verdict == ModelDegradation { DropRejected(); }
    }

    method ConsultGuard(score: real) returns (guard: Assessment)
      requires |recentScores| <= 4
      ensures guard.Assessed? && (guard.restore <==> guard.consecutive >= c.policy.degradationPatience)
      ensures guard.consecutive == GuardCount(Books(), c.policy, score)
    {
      var window := recentScores + [score];
      FiniteValuesOfFinite(window);
      guard := AssessTrend(seq(|window|, i requires 0 <= i < |window| => Finite(window[i])),
                           if evalCount == 0 then score else bestScore,
                           c.policy.degradationMargin, c.policy.degradationPatience);
    }

    /** The rejected last checkpoint is dropped; the best one is not touched. */
    method DropRejected()
      modifies this`lastInfo, checkpoints
      ensures old(BestIsManaged()) <==> BestIsManaged()
      ensures BestFile() == old(BestFile())
      ensures Last(runId) !in checkpoints.files && lastInfo == None
    {
      checkpoints.DiscardLast(runId);
      lastInfo := None;
    }

    // ---------------------------------------------------------------- what survives

    /** What a loop knows of its managed best, `plateau` evaluations after it recorded a new one: if that
        evaluation's save wrote a file, the best checkpoint is the best score's and holds the bytes saved then.
        A loop that recorded no new best leaves a sound one sound. */
    ghost predicate Trusted(managed: bool, saves: seq<SaveReply>)
      reads this`bestScore, this`bestStep, this`bestInfo, this`plateau, checkpoints
    {
      if plateau < |saves| then
        var save := saves[|saves| - 1 - plateau];
        save.Wrote? ==> BestIsManaged() && BestFile() == Some(save.bytes)
      else managed ==> BestIsManaged()
    }

    lemma TrustedMore(managed: bool, saves: seq<SaveReply>, save: SaveReply, improved: bool, before: nat)
      requires plateau == if improved then 0 else before + 1
      requires improved && save.Wrote? ==> BestIsManaged() && BestFile() == Some(save.bytes)
      requires !improved ==>
        if before < |saves| then
          saves[|saves| - 1 - before].Wrote? ==>
            BestIsManaged() && BestFile() == Some(saves[|saves| - 1 - before].bytes)
        else managed ==> BestIsManaged()
      ensures Trusted(managed, saves + [save])
    {
      hide BestIsManaged, BestFile;
      var saves' := saves + [save];
      if improved { assert saves'[|saves'| - 1 - plateau] == save; }
    }

    /** The evaluation half of a turn. `None` reports a raised exception. */
    method Validate(now: Reaction, ghost start: Book, ghost s: LoopState, ghost managed: bool)
      returns (verdict: Option<Verdict>)
      requires Valid() && Opening(start) && At(start, s) && |s.saves| == |s.evals| && Trusted(managed, s.saves)
      modifies this`evalCount, this`recentScores, this`bestScore, this`bestStep, this`plateau
      modifies this`degradationStreak, this`targetHits, this`bestInfo, this`lastInfo
      modifies this`batchSize, this`batchAdjustments, checkpoints
      ensures var turn := Judged(c, start, s, now);
        && (verdict.None? <==> turn.Raises?) && Trusted(managed, turn.s.saves)
        && (verdict.None? ==> Halted(start, turn.s, turn.counted))
      ensures verdict.Some? ==>
        && now.eval.Scored?
        && var s' := Evaluated(c, start, s, now.eval.score, now.save);
        && At(start, s') && Judged(c, start, s, now).s.saves == s'.saves
        && verdict.value == VerdictAt(start, c.policy, s'.evals, |s'.evals|, c.maxSteps)
    {
      hide After, VerdictAt, BestIsManaged, BestFile, Improves, Shrinks, Grows, Judged, Evaluated;
      JudgedByReply(c, start, s, now);
      if now.eval.EvalFailed? {
        HaltedHere(start, s);
        return None;
      }
      if now.eval.NonFinite? {
        evalCount := evalCount + 1;
        return None;
      }
      ghost var score := now.eval.score;
      ghost var improved, before := Improves(Books(), c.policy, score), plateau;
      verdict := Evaluate(start, s, now.eval.score, now.save);
      if !now.save.SaveFailed? {
        AfterMore(start, c.policy, s.evals, Evaluation(step, score));
        EvaluatedShape(c, start, s, score, now.save);
        TrustedMore(managed, s.saves, now.save, improved, before);
        if verdict.None? { HaltedHere(start, Logged(s, score, now.save)); }
      }
    }

    /** A raised exception leaves the logged state, with the counter raised once more if it was counted. */
    ghost predicate Halted(start: Book, s: LoopState, counted: bool)
      reads this
    {
      && Here(s.evals, s.saves) == s
      && Kept() == AfterSession(c.policy, Stored(start.evalCount, start.bestScore, start.bestStep),
                                Session(s.evals, counted))
      && plateau == After(start, c.policy, s.evals).plateau
    }

    // ---------------------------------------------------------------- completing

    /** Restore the best checkpoint, then test it. */
    method CompleteWithTest(finish: FinishReply) returns (ok: bool)
      modifies this`restored, this`testedCheckpoint
      ensures !ok <==>
        (c.canRestore && BestFile().Some? && finish.RestoreFailed?) || (c.canTest && finish.TestFailed?)
      ensures ok ==> restored == if BestFile().Some? && c.canRestore then BestFile() else old(restored)
      ensures ok && c.canTest ==>
        testedCheckpoint == if bestInfo.Some? then Some(bestInfo.value.digest) else None
      ensures ok && !c.canTest ==> testedCheckpoint == old(testedCheckpoint)
    {
      if Best(runId) in checkpoints.files && c.canRestore {
        if finish.RestoreFailed? { return false; }
        restored := Some(checkpoints.files[Best(runId)]);
      }
      if !c.canTest { return true; }
      if finish.TestFailed? { return false; }
      testedCheckpoint := if bestInfo.Some? then Some(bestInfo.value.digest) else None;
      ok := true;
    }

    /** The best checkpoint, if there is one, was restored, and the test names it. */
    ghost predicate TestedBest()
      reads this`restored, this`testedCheckpoint, this`bestInfo, checkpoints
    {
      && (c.canRestore && BestFile().Some? ==> restored == BestFile())
      && (c.canTest ==> testedCheckpoint == if bestInfo.Some? then Some(bestInfo.value.digest) else None)
    }

    /** With a sound best, the tested model is the restored best score's, under its own digest. */
    lemma TestedModelIsTheBest()
      requires TestedBest() && BestIsManaged() && c.canRestore && c.canTest
      ensures restored == BestFile() && restored.Some?
      ensures testedCheckpoint == Some(checkpoints.sha256(restored.value))
      ensures checkpoints.meta[Best(runId)][BestScore] == Number(bestScore)
    {
    }

    /** Clamp the step at the limit, then restore and test. */
    method Complete(verdict: Verdict, finish: FinishReply) returns (end: LoopEnd)
      modifies this`step, this`restored, this`testedCheckpoint
      ensures step == if verdict == MaxSteps then c.maxSteps else old(step)
      ensures end ==
        if FinishRaises(c, finish, c.canRestore && BestFile().Some?) then CrashedEnd else CompletedEnd(verdict)
      ensures end.CompletedEnd? ==> TestedBest()
    {
      if verdict == MaxSteps { step := c.maxSteps; }
      var ok := CompleteWithTest(finish);
      end := if ok then CompletedEnd(verdict) else CrashedEnd;
    }

    // ---------------------------------------------------------------- the loop

    /** The second half of a turn: evaluate, and complete on a stopping verdict. */
    method Assess(now: Reaction, finish: FinishReply, ghost start: Book, ghost s: LoopState, ghost managed: bool)
      returns (end: Option<LoopEnd>)
      requires Valid() && Opening(start) && At(start, s) && |s.saves| == |s.evals| && Trusted(managed, s.saves)
      modifies this, checkpoints
      ensures TurnDone(start, Judged(c, start, s, now), finish, managed, end)
    {
      hide After, Evaluated, VerdictAt, BestIsManaged, BestFile, TestedBest, Opening, FinishRaises, Judged, Trusted,
        PromotionRaises, Logged, LegalPolicy;
      end := None;
      JudgedByReply(c, start, s, now);
      EvaluatedCounts(c, start, s, now);
      var verdict := Validate(now, start, s, managed);
      if verdict.None? {
        end := Some(CrashedEnd);
      } else if verdict.value != KeepTraining {
        HaltedHere(start, Evaluated(c, start, s, now.eval.score, now.save));
        var finished := Complete(verdict.value, finish);
        end := Some(finished);
      }
    }

    /** One turn after the control flags were found clear: exactly what the turn function says. `None` means
        that another turn follows. */
    method Pass(now: Reaction, finish: FinishReply, ghost start: Book, ghost s: LoopState, ghost managed: bool)
      returns (end: Option<LoopEnd>)
      requires Valid() && Opening(start) && At(start, s) && |s.saves| == |s.evals| && Trusted(managed, s.saves)
      modifies this, checkpoints
      ensures TurnDone(start, Turned(c, start, s, now), finish, managed, end)
    {
      hide After, BestIsManaged, BestFile, TestedBest, Stepped, CanShrink, Opening, FinishRaises, Turned, Judged,
        Halved, Trusted, LegalPolicy;
      end := None;
      TurnByReply(c, start, s, now);
      var executed := Train(now.train, s);
      if executed.None? {
        end := Some(CrashedEnd);
        HaltedHere(start, s);
      } else if executed != Some(0) {
        SteppedShape(c, s, now.train.loss);
        if step % c.interval == 0 || step >= c.maxSteps {
          end := Assess(now, finish, start, Stepped(c, s, now.train.loss), managed);
        }
      }
    }

    /** The fields after a turn. */
    ghost predicate TurnDone(start: Book, turn: Turn, finish: FinishReply, managed: bool, end: Option<LoopEnd>)
      reads this, checkpoints
    {
      && |turn.s.saves| == |turn.s.evals| && Trusted(managed, turn.s.saves)
      && match turn
         case Onward(s) => end == None && At(start, s)
         case Raises(s, counted) => end == Some(CrashedEnd) && Halted(start, s, counted)
         case Final(s, verdict) =>
           && end == Some(if FinishRaises(c, finish, c.canRestore && BestFile().Some?) then CrashedEnd
                          else CompletedEnd(verdict))
           && Halted(start, s, false)
           && (end.value.CompletedEnd? ==> TestedBest())
    }

    lemma HaltedHere(start: Book, s: LoopState)
      requires At(start, s) && Opening(start)
      ensures Halted(start, s, false)
    {
    }

    /** The loop's own counters start clean. */
    method OpenBook()
      modifies this`plateau, this`targetHits, this`degradationStreak, this`recentScores
      ensures Books() == Reopened(Kept()) && Opening(Books()) && Kept() == old(Kept())
    {
      plateau, targetHits, degradationStreak, recentScores := 0, 0, 0, [];
    }

    /** The whole loop. `env(i)` is everything the backend and the control plane do during turn i. It ends
        where, when and how the environment says, with the counters, the batch and the best of exactly the
        evaluations that the backend reported; and whatever the end, a sound best stays sound. */
    method Run(env: nat -> Reaction, finish: FinishReply) returns (end: LoopEnd, ghost log: SessionLog)
      requires Valid()
      modifies this, checkpoints
      ensures log.start == Reopened(old(Kept())) && log.entry == old(Here([], [])) && log.ending.end == end
      ensures log.restores == (c.canRestore && BestFile().Some?)
      ensures Ran(c, log.start, log.entry, env, finish, log.restores, log.turns, log.ending)
      ensures Halted(log.start, log.ending.s, log.ending.counted)
      ensures |log.ending.s.saves| == |log.ending.s.evals| && Trusted(old(BestIsManaged()), log.ending.s.saves)
      ensures end.CompletedEnd? ==> TestedBest()
      ensures end == StoppedEnd <==> env(log.turns).stop
      ensures end == PausedEnd <==> !env(log.turns).stop && env(log.turns).pause
      ensures forall i :: 0 <= i < log.turns ==> !env(i).stop && !env(i).pause
    {
      hide Turned, BestIsManaged, BestFile, After, TestedBest;
      ghost var managed, entry := BestIsManaged(), Here([], []);
      OpenBook();
      ghost var start := Books();
      ghost var s, turns := entry, 0;
      OpeningLog(start, c.policy);
      var pass := 0;
      while true
        invariant turns == pass && Reached(c, start, entry, env, turns) == Some(s)
        invariant At(start, s) && |s.saves| == |s.evals| && Trusted(managed, s.saves)
        decreases if step < c.maxSteps then c.maxSteps - step else 0, batchSize
      {
        var now := env(pass);
        if now.stop || now.pause {
          end := if now.stop then StoppedEnd else PausedEnd;
          HaltedHere(start, s);
          log := SessionLog(start, entry, turns, Ending(end, s, false), c.canRestore && BestFile().Some?);
          break;
        }
        var passed := Pass(now, finish, start, s, managed);
        if passed.Some? {
          end := passed.value;
          ghost var restores := c.canRestore && BestFile().Some?;
          log := SessionLog(start, entry, turns, EndsIn(c, start, s, now, finish, restores).value, restores);
          break;
        }
        TurnProgress(c, start, s, now);
        s := Turned(c, start, s, now).s;
        pass := pass + 1;
        turns := turns + 1;
      }
      FlagsDecide(c, start, entry, env, finish, log.restores, log.turns, log.ending);
    }

    // ---------------------------------------------------------------- a run's whole life

    /** The run is resumed once for every environment, however its sessions ended. The record is that of the
        life they make, and its best stays sound from the first recorded best on. */
    method Lifetime(envs: seq<nat -> Reaction>, finishes: seq<FinishReply>) returns (ghost logs: seq<SessionLog>)
      requires Valid() && |envs| == |finishes|
      modifies this, checkpoints
      ensures |logs| == |envs| && forall i :: 0 <= i < |logs| ==> RanIn(logs[i], envs[i], finishes[i])
      ensures forall i :: 0 <= i < |logs| ==> |logs[i].ending.s.saves| == |logs[i].ending.s.evals|
      ensures Kept() == AfterLife(c.policy, old(Kept()), Sessions(logs))
      ensures Linked(old(Kept()), logs)
      ensures Sound(old(BestIsManaged()), logs) ==> BestIsManaged()
    {
      hide Ran, BestIsManaged, BestFile, After, TestedBest, NewBest, SavedBest, AfterSession, AfterLife, Sessions,
        Linked, Sound, Trusted;
      logs := [];
      NoSessions(Kept(), BestIsManaged());
      var i := 0;
      while i < |envs|
        invariant 0 <= i <= |envs| && |logs| == i
        invariant forall j :: 0 <= j < i ==> RanIn(logs[j], envs[j], finishes[j])
        invariant forall j :: 0 <= j < i ==> |logs[j].ending.s.saves| == |logs[j].ending.s.evals|
        invariant Kept() == AfterLife(c.policy, old(Kept()), Sessions(logs)) && Linked(old(Kept()), logs)
        invariant Sound(old(BestIsManaged()), logs) ==> BestIsManaged()
      {
        var managed := BestIsManaged();
        var end, log := Run(envs[i], finishes[i]);
        SessionsMore(logs, log);
        LinkedMore(old(Kept()), logs, log);
        SoundMore(old(BestIsManaged()), managed, logs, log);
        logs := logs + [log];
        i := i + 1;
      }
    }

    /** Every session opened with what the sessions before it had left. */
    ghost predicate Linked(stored: Stored, logs: seq<SessionLog>) {
      forall i :: 0 <= i < |logs| ==> logs[i].start == Reopened(AfterLife(c.policy, stored, Sessions(logs[..i])))
    }

    lemma NoSessions(stored: Stored, managed: bool)
      ensures Linked(stored, []) && AfterLife(c.policy, stored, Sessions([])) == stored
      ensures Sound(managed, []) == managed
    {
    }

    lemma LinkedMore(stored: Stored, logs: seq<SessionLog>, log: SessionLog)
      requires Linked(stored, logs) && log.start == Reopened(AfterLife(c.policy, stored, Sessions(logs)))
      ensures Linked(stored, logs + [log])
    {
      hide AfterLife, Sessions;
      var more := logs + [log];
      forall i | 0 <= i < |more|
        ensures more[i].start == Reopened(AfterLife(c.policy, stored, Sessions(more[..i])))
      {
        assert more[..i] == if i < |logs| then logs[..i] else logs;
      }
    }

    /** One more session under the loop's promise about its best. */
    lemma SoundMore(before: bool, managed: bool, logs: seq<SessionLog>, log: SessionLog)
      requires forall i :: 0 <= i < |logs| ==> |logs[i].ending.s.saves| == |logs[i].ending.s.evals|
      requires |log.ending.s.saves| == |log.ending.s.evals|
      requires Sound(before, logs) ==> managed
      requires Trusted(managed, log.ending.s.saves) && Halted(log.start, log.ending.s, log.ending.counted)
      ensures Sound(before, logs + [log]) ==> BestIsManaged()
    {
      hide BestIsManaged, BestFile, After, NewBest, SavedBest, AfterSession;
      NewBestIff(log, plateau);
      assert (logs + [log])[..|logs|] == logs && (logs + [log])[|logs|] == log;
    }

    ghost predicate RanIn(log: SessionLog, env: nat -> Reaction, finish: FinishReply)
      requires Valid()
    {
      Ran(c, log.start, log.entry, env, finish, log.restores, log.turns, log.ending)
    }

    /** The session recorded a new best score. */
    ghost predicate NewBest(log: SessionLog) {
      After(log.start, c.policy, log.ending.s.evals).plateau < |log.ending.s.evals|
    }

    /** And the save of that evaluation wrote a file. */
    ghost predicate SavedBest(log: SessionLog)
      requires NewBest(log) && |log.ending.s.saves| == |log.ending.s.evals|
    {
      var plateau := After(log.start, c.policy, log.ending.s.evals).plateau;
      log.ending.s.saves[|log.ending.s.saves| - 1 - plateau].Wrote?
    }

    /** The last session with a new best saved it; or there was none, and the best was sound before. */
    ghost predicate Sound(managed: bool, logs: seq<SessionLog>)
      requires forall i :: 0 <= i < |logs| ==> |logs[i].ending.s.saves| == |logs[i].ending.s.evals|
    {
      if logs == [] then managed
      else
        var last := logs[|logs| - 1];
        if NewBest(last) then SavedBest(last) else Sound(managed, logs[..|logs| - 1])
    }

    lemma NewBestIff(log: SessionLog, plateau: nat)
      requires |log.ending.s.saves| == |log.ending.s.evals|
      requires plateau == After(log.start, c.policy, log.ending.s.evals).plateau
      ensures NewBest(log) <==> plateau < |log.ending.s.saves|
      ensures NewBest(log) ==> (SavedBest(log) <==> log.ending.s.saves[|log.ending.s.saves| - 1 - plateau].Wrote?)
    {
    }
  }

  /** The file that a save leaves behind. */
  function Written(save: SaveReply): Option<Bytes> {
    match save
    case Wrote(bytes) => Some(bytes)
    case PromoteFailed(bytes, _) => Some(bytes)
    case SaveFailed(left) => left
    case WroteNothing => None
  }

  lemma EvaluatedCounts(c: Config, start: Book, s: LoopState, now: Reaction)
    requires |s.saves| == |s.evals|
    ensures var turn := Judged(c, start, s, now); |turn.s.saves| == |turn.s.evals|
  {
    hide After, VerdictAt, Shrinks, Grows, Improves;
  }

  function Sessions(logs: seq<SessionLog>): (life: seq<Session>)
    ensures |life| == |logs|
  {
    seq(|logs|, i requires 0 <= i < |logs| => Session(logs[i].ending.s.evals, logs[i].ending.counted))
  }

  lemma SessionsMore(logs: seq<SessionLog>, log: SessionLog)
    ensures Sessions(logs + [log]) == Sessions(logs) + [Session(log.ending.s.evals, log.ending.counted)]
    ensures forall policy, stored ::
      AfterLife(policy, stored, Sessions(logs + [log])) ==
      AfterSession(policy, AfterLife(policy, stored, Sessions(logs)), Session(log.ending.s.evals, log.ending.counted))
  {
    hide AfterSession;
    var life, more := Sessions(logs), Sessions(logs + [log]);
    assert more == life + [Session(log.ending.s.evals, log.ending.counted)];
    assert more[..|life|] == life;
  }

  lemma OpeningLog(start: Book, policy: Policy)
    ensures After(start, policy, []) == start
  {
  }

  lemma SameBatchUnlessResized(c: Config, batch: nat, book: Book)
    ensures !Shrinks(c, batch, book) && !Grows(c, batch, book) ==> Adapted(c, batch, book) == batch
  {
  }

  lemma SteppedShape(c: Config, s: LoopState, loss: real)
    requires c.interval >= 1
    ensures var s1 := Stepped(c, s, loss);
      s1.evals == s.evals && s1.saves == s.saves && s1.batch == s.batch && s1.adjustments == s.adjustments
  {
  }
}
